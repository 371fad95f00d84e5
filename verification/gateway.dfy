/** The gateway handshake of `connect_to_vc` (app.py) over an abstract stream of inbound
    reads, and the keep-alive loop that follows it. Sockets and JSON are gone: each read is
    an `Inbound` value, and the outcome of each operation that can raise (connecting,
    sending identify, sending the voice state update) is an oracle in `Transport`. */
module Gateway {
  import opened Base

  /** One read from the gateway socket. */
  datatype Inbound =
    | Dropped                                          // `recv` raised: the socket closed or failed
    | Garbled                                          // the text is not a JSON object
    | Frame(t: Option<string>, heartbeatInterval: Option<int>)  // an object, its "t" and "d.heartbeat_interval"

  /** The dispatch type that marks the session as ready. */
  const ReadyType: string := "READY"

  predicate IsReady(f: Inbound) {
    f.Frame? && f.t == Some(ReadyType)
  }

  /** Frames read while waiting for READY that are dropped without effect. */
  predicate Discardable(frames: seq<Inbound>) {
    forall k :: 0 <= k < |frames| ==> frames[k].Frame? && !IsReady(frames[k])
  }

  datatype Properties = Properties(os: string, browser: string, device: string)
  datatype Presence = Presence(status: string, afk: bool)

  /** The client environment and presence the identify frame declares. */
  const ClientProperties: Properties := Properties("windows", "chrome", "pc")
  const InitialPresence: Presence := Presence("online", false)

  /** Frames the client sends during the handshake. */
  datatype Outbound =
    | Identify(token: string, properties: Properties, presence: Presence)
    | VoiceStateUpdate(guildId: string, channelId: string, selfMute: bool, selfDeaf: bool)

  /** The gateway opcode each outbound frame carries. */
  function OpCode(f: Outbound): (op: int)
    ensures op == 2 <==> f.Identify?
    ensures op == 4 <==> f.VoiceStateUpdate?
  {
    match f
    case Identify(_, _, _) => 2
    case VoiceStateUpdate(_, _, _, _) => 4
  }

  /** What the handshake did, in order. */
  datatype Action = Received(frame: Inbound) | HeartbeatStarted(intervalMs: int) | Sent(out: Outbound)

  /** Why a handshake failed (the text stored as the record's "error"). */
  datatype Cause = ConnectFailed | ReceiveFailed | NotJson | NoHeartbeatInterval | SendFailed

  /** Whether connecting, sending identify and sending the voice state update succeed. */
  datatype Transport = Transport(connects: bool, identifyDelivered: bool, voiceDelivered: bool)

  /** The handshake's outcome: still blocked in a read, failed (the exception handler ran),
      or joined with the reads not yet consumed. */
  datatype Outcome =
    | Pending(log: seq<Action>)
    | Failed(cause: Cause, log: seq<Action>)
    | Joined(log: seq<Action>, rest: seq<Inbound>)

  /** Where waiting for READY ends: at the READY frame, at a read that raised, or still
      blocked after the reads available. */
  datatype Scan = ReadyAt(index: nat) | BrokenAt(index: nat) | Waiting

  /** The `while True` loop waiting for READY. It stops at the first READY frame, or at the
      first read that raises; everything before the stop point is an ordinary frame that is
      not READY. */
  function AwaitReady(frames: seq<Inbound>): (s: Scan)
    ensures s.ReadyAt? ==> s.index < |frames| && IsReady(frames[s.index]) && Discardable(frames[..s.index])
    ensures s.BrokenAt? ==> s.index < |frames| && !frames[s.index].Frame? && Discardable(frames[..s.index])
    ensures s.Waiting? ==> Discardable(frames)
  {
    if |frames| == 0 then Waiting
    else if IsReady(frames[0]) then ReadyAt(0)
    else if !frames[0].Frame? then BrokenAt(0)
    else
      match AwaitReady(frames[1..])
      case ReadyAt(k) =>
        assert frames[..k + 1] == [frames[0]] + frames[1..][..k];
        ReadyAt(k + 1)
      case BrokenAt(k) =>
        assert frames[..k + 1] == [frames[0]] + frames[1..][..k];
        BrokenAt(k + 1)
      case Waiting => Waiting
  }

  /** One `Received` action per frame, in order. */
  function Receipts(frames: seq<Inbound>): (log: seq<Action>)
    ensures |log| == |frames|
    ensures forall k :: 0 <= k < |frames| ==> log[k] == Received(frames[k])
  {
    if |frames| == 0 then [] else [Received(frames[0])] + Receipts(frames[1..])
  }

  /** The identify frame for `token`. */
  function IdentifyFrame(token: string): Outbound {
    Identify(token, ClientProperties, InitialPresence)
  }

  /** The voice state update joining `channel` of `guild`, muted and deafened. */
  function JoinFrame(guild: string, channel: string): Outbound {
    VoiceStateUpdate(guild, channel, true, true)
  }

  /** The exception a failed read raises. */
  function ReadFailure(f: Inbound): Cause {
    if f.Dropped? then ReceiveFailed else NotJson
  }

  /** `connect_to_vc` up to the point where the record becomes connected. Nothing happens
      on a socket that did not open; otherwise the log starts with the hello, and a joined
      handshake ends with the voice state update, leaving a suffix of the reads unconsumed. */
  function Handshake(token: string, guild: string, channel: string, transport: Transport, inbound: seq<Inbound>): (h: Outcome)
    ensures !transport.connects ==> h == Failed(ConnectFailed, [])
    ensures |h.log| > 0 ==> |inbound| > 0 && h.log[0] == Received(inbound[0])
    ensures h.Joined? ==>
      && 5 <= |h.log|
      && h.log[|h.log| - 1] == Sent(JoinFrame(guild, channel))
      && |h.rest| < |inbound|
      && h.rest == inbound[|inbound| - |h.rest|..]
  {
    if !transport.connects then Failed(ConnectFailed, [])
    else if |inbound| == 0 then Pending([])
    else
      var hello := inbound[0];
      if !hello.Frame? then Failed(ReadFailure(hello), [])
      else if hello.heartbeatInterval.None? then Failed(NoHeartbeatInterval, [])
      else
        var greeted := [Received(hello), HeartbeatStarted(hello.heartbeatInterval.value)];
        if !transport.identifyDelivered then Failed(SendFailed, greeted)
        else
          var identified := greeted + [Sent(IdentifyFrame(token))];
          var frames := inbound[1..];
          match AwaitReady(frames)
          case Waiting => Pending(identified + Receipts(frames))
          case BrokenAt(k) => Failed(ReadFailure(frames[k]), identified + Receipts(frames[..k]))
          case ReadyAt(k) =>
            var ready := identified + Receipts(frames[..k + 1]);
            if !transport.voiceDelivered then Failed(SendFailed, ready)
            else Joined(ready + [Sent(JoinFrame(guild, channel))], frames[k + 1..])
  }

  /** The log sends a voice state update at position `j`. */
  predicate VoiceSentAt(log: seq<Action>, j: int) {
    0 <= j < |log| && log[j].Sent? && log[j].out.VoiceStateUpdate?
  }

  /** The handshake joins exactly when the socket opens, the hello carries a heartbeat
      interval, both sends go through and a READY frame arrives without a failed read
      before it. */
  lemma JoinedIff(token: string, guild: string, channel: string, transport: Transport, inbound: seq<Inbound>)
    ensures Handshake(token, guild, channel, transport, inbound).Joined? <==>
      && transport.connects && transport.identifyDelivered && transport.voiceDelivered
      && |inbound| > 0 && inbound[0].Frame? && inbound[0].heartbeatInterval.Some?
      && AwaitReady(inbound[1..]).ReadyAt?
  {
  }

  /** A joined handshake consumed the hello, started the heartbeat, sent identify, read and
      discarded every frame up to the first READY, read that READY, and then sent the voice
      state update for the requested guild and channel with mute and deafen set; the reads
      it did not consume are left for the keep-alive loop. */
  lemma JoinedLog(token: string, guild: string, channel: string, transport: Transport, inbound: seq<Inbound>)
    requires Handshake(token, guild, channel, transport, inbound).Joined?
    ensures var h := Handshake(token, guild, channel, transport, inbound);
      var ready := |inbound| - |h.rest| - 1;
      && 1 <= ready < |inbound|
      && IsReady(inbound[ready])
      && Discardable(inbound[1..ready])
      && h.rest == inbound[ready + 1..]
      && h.log == [Received(inbound[0]), HeartbeatStarted(inbound[0].heartbeatInterval.value), Sent(IdentifyFrame(token))]
                  + Receipts(inbound[1..ready]) + [Received(inbound[ready]), Sent(JoinFrame(guild, channel))]
  {
    var h := Handshake(token, guild, channel, transport, inbound);
    var frames := inbound[1..];
    var k := AwaitReady(frames).index;
    assert frames[..k + 1] == inbound[1..k + 1] + [inbound[k + 1]];
    assert frames[..k] == inbound[1..k + 1];
    assert frames[k + 1..] == inbound[k + 2..];
    assert Receipts(frames[..k + 1]) == Receipts(inbound[1..k + 1]) + [Received(inbound[k + 1])];
  }

  /** Ordering over every outcome: a voice state update is sent only by a joined handshake,
      as its last action, for the requested guild and channel with mute and deafen set; it
      comes after the identify (always the third action) and right after the READY frame. */
  lemma VoiceOnlyAfterIdentifyAndReady(token: string, guild: string, channel: string, transport: Transport, inbound: seq<Inbound>, j: int)
    requires VoiceSentAt(Handshake(token, guild, channel, transport, inbound).log, j)
    ensures var h := Handshake(token, guild, channel, transport, inbound);
      && h.Joined?
      && j == |h.log| - 1
      && h.log[j] == Sent(JoinFrame(guild, channel))
      && OpCode(h.log[j].out) == 4
      && 2 < j - 1
      && h.log[2] == Sent(IdentifyFrame(token))
      && OpCode(h.log[2].out) == 2
      && (forall m :: 0 <= m < |h.log| && m != 2 && m != j ==> !h.log[m].Sent?)
      && h.log[j - 1].Received? && IsReady(h.log[j - 1].frame)
      && (forall m :: 3 <= m < j - 1 ==> h.log[m].Received? && !IsReady(h.log[m].frame))
  {
    JoinedLog(token, guild, channel, transport, inbound);
  }

  /** How the keep-alive loop after joining ends: the record's status stopped reading
      "connected", a read raised, or it is still blocked in a read. */
  datatype Ending = StatusChanged(consumed: nat) | ReadRaised(consumed: nat) | Blocked

  /** The socket is closed exactly when the loop ended. */
  predicate ClosesSocket(e: Ending) {
    !e.Blocked?
  }

  /** The keep-alive loop from its `k`-th status check: `connected[k]` says the record still
      read "connected" at that check. The frames it reads are discarded. */
  function KeepAlive(rest: seq<Inbound>, connected: seq<bool>, k: nat): (e: Ending)
    requires |connected| == |rest| + 1 && k <= |rest|
    ensures e.StatusChanged? ==> k <= e.consumed <= |rest| && !connected[e.consumed]
    ensures e.ReadRaised? ==> k <= e.consumed < |rest| && rest[e.consumed].Dropped? && connected[e.consumed]
    ensures forall m :: k <= m < (if e.Blocked? then |rest| else e.consumed) ==> connected[m] && !rest[m].Dropped?
    ensures e.Blocked? ==> connected[|rest|]
    decreases |rest| - k
  {
    if !connected[k] then StatusChanged(k)
    else if k == |rest| then Blocked
    else if rest[k].Dropped? then ReadRaised(k)
    else KeepAlive(rest, connected, k + 1)
  }
}
