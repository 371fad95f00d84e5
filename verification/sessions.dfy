/** The voice-session registry of app.py (`vc_connections`) and the effect on it of the
    `/vc/connect`, `/vc/disconnect` and `/vc/status` handlers and of `connect_to_vc`. */
module Sessions {
  import opened Base
  import Text
  import opened Gateway

  datatype SessionStatus = Connecting | Connected | Errored | Disconnected

  /** The guild and channel a joined session sits in; the record also owns the socket. */
  datatype Target = Target(guildId: string, channelId: string)

  /** A session record: `target` is present once joined, `error` once the handshake failed. */
  datatype Session = Session(status: SessionStatus, target: Option<Target>, error: Option<Cause>)

  type Registry = map<string, Session>

  /** The record `/vc/connect` writes before starting the handshake. */
  const Launching: Session := Session(Connecting, None, None)

  /** The key a (guild, channel) pair is stored under: "vc_{guild}_{channel}". */
  function ConnectionId(guild: string, channel: string): (id: string)
    ensures |id| == |guild| + |channel| + 4
    ensures id[..3] == "vc_" && id[3..3 + |guild|] == guild && id[3 + |guild|] == '_' && id[4 + |guild|..] == channel
  {
    "vc_" + guild + "_" + channel
  }

  /** With guild ids free of '_' (numeric ids are), different pairs get different keys, so
      the key names exactly one (guild, channel) pair. */
  lemma ConnectionIdInjective(g1: string, c1: string, g2: string, c2: string)
    requires '_' !in g1 && '_' !in g2
    ensures ConnectionId(g1, c1) == ConnectionId(g2, c2) <==> g1 == g2 && c1 == c2
  {
    if ConnectionId(g1, c1) == ConnectionId(g2, c2) {
      var s1 := ConnectionId(g1, c1)[3..];
      assert s1 == g1 + "_" + c1;
      assert s1 == g2 + "_" + c2;
      assert s1[..|g1|] == g1;
      assert s1[..|g2|] == g2;
      Text.FirstIndexAt(s1, '_', |g1|);
      Text.FirstIndexAt(s1, '_', |g2|);
      assert s1[|g1| + 1..] == c1;
    }
  }

  /** Without that restriction two pairs can share a key. */
  lemma ConnectionIdCollision()
    ensures ConnectionId("1_2", "3") == ConnectionId("1", "2_3")
  {
  }

  /** A request field counts as given when present and non-empty (Python truthiness). */
  predicate Given(field: Option<string>) {
    field.Some? && field.value != ""
  }

  datatype ConnectReply = MissingFields | AlreadyConnected(id: string) | Launched(id: string)

  /** `/vc/connect`: reject missing fields; suppress a request for a key whose record is
      connected; otherwise (re)write the record as connecting before the handshake starts. */
  function VcConnect(sessions: Registry, token: Option<string>, guild: Option<string>, channel: Option<string>): (r: (Registry, ConnectReply))
    ensures r.1.MissingFields? <==> !(Given(token) && Given(guild) && Given(channel))
    ensures r.1.AlreadyConnected? <==>
      && Given(token) && Given(guild) && Given(channel)
      && var id := ConnectionId(guild.value, channel.value);
         id in sessions && sessions[id].status == Connected
    ensures !r.1.MissingFields? ==> r.1.id == ConnectionId(guild.value, channel.value)
    ensures !r.1.Launched? ==> r.0 == sessions
    ensures r.1.Launched? ==>
      && r.0.Keys == sessions.Keys + {r.1.id}
      && r.0[r.1.id] == Launching
      && forall other :: other in sessions && other != r.1.id ==> r.0[other] == sessions[other]
  {
    if !(Given(token) && Given(guild) && Given(channel)) then (sessions, MissingFields)
    else
      var id := ConnectionId(guild.value, channel.value);
      if id in sessions && sessions[id].status == Connected then (sessions, AlreadyConnected(id))
      else (sessions[id := Launching], Launched(id))
  }

  /** `/vc/status`, and the status `/vc/connect` reports after its grace period: the
      record's status, or nothing for an unknown key. */
  function VcStatus(sessions: Registry, id: string): (s: Option<SessionStatus>)
    ensures s.Some? <==> id in sessions
    ensures s.Some? ==> s.value == sessions[id].status
  {
    if id in sessions then Some(sessions[id].status) else None
  }

  datatype DisconnectReply = NotFound | DisconnectDone(closedSocket: bool)

  /** `/vc/disconnect`: flip a known record's status to disconnected, keeping its other
      fields, and close its socket when it has one; an unknown key changes nothing. */
  function VcDisconnect(sessions: Registry, id: string): (r: (Registry, DisconnectReply))
    ensures r.1.NotFound? <==> id !in sessions
    ensures r.1.NotFound? ==> r.0 == sessions
    ensures r.1.DisconnectDone? ==>
      && r.0.Keys == sessions.Keys
      && r.0[id] == sessions[id].(status := Disconnected)
      && (r.1.closedSocket <==> sessions[id].target.Some?)
      && forall other :: other in sessions && other != id ==> r.0[other] == sessions[other]
  {
    if id in sessions then
      (sessions[id := sessions[id].(status := Disconnected)], DisconnectDone(sessions[id].target.Some?))
    else (sessions, NotFound)
  }

  /** Disconnecting a key makes it read disconnected, so the next connect for the pair is
      no longer suppressed: it rewrites the record as connecting. */
  lemma DisconnectAllowsReconnect(sessions: Registry, token: string, guild: string, channel: string)
    requires token != "" && guild != "" && channel != ""
    requires ConnectionId(guild, channel) in sessions
    ensures var (after, reply) := VcDisconnect(sessions, ConnectionId(guild, channel));
      && reply.DisconnectDone?
      && VcStatus(after, ConnectionId(guild, channel)) == Some(Disconnected)
      && VcConnect(after, Some(token), Some(guild), Some(channel)).1 == Launched(ConnectionId(guild, channel))
  {
  }

  /** What `connect_to_vc` writes for its key once the handshake outcome is known: a
      connected record with the target on joining, an error record on failure, and nothing
      while it is still blocked in a read. */
  function RecordHandshake(sessions: Registry, id: string, guild: string, channel: string, h: Outcome): (r: Registry)
    ensures h.Pending? ==> r == sessions
    ensures !h.Pending? ==> r.Keys == sessions.Keys + {id}
    ensures h.Failed? ==> r[id] == Session(Errored, None, Some(h.cause))
    ensures h.Joined? ==> r[id] == Session(Connected, Some(Target(guild, channel)), None)
    ensures forall other :: other in sessions && other != id ==> r[other] == sessions[other]
  {
    match h
    case Pending(_) => sessions
    case Failed(cause, _) => sessions[id := Session(Errored, None, Some(cause))]
    case Joined(_, _) => sessions[id := Session(Connected, Some(Target(guild, channel)), None)]
  }

  /** Starting from the connecting record, the key reads connected exactly when the
      handshake joined, that is, exactly when it sent the voice state update (as its last
      action); it reads error exactly when the handshake failed. */
  lemma ConnectedOnlyAfterVoiceUpdate(sessions: Registry, id: string, token: string, guild: string, channel: string, transport: Transport, inbound: seq<Inbound>)
    requires id in sessions && sessions[id] == Launching
    ensures var h := Handshake(token, guild, channel, transport, inbound);
      var after := RecordHandshake(sessions, id, guild, channel, h);
      && (after[id].status == Connected <==> h.Joined?)
      && (after[id].status == Connected ==> |h.log| > 0 && h.log[|h.log| - 1] == Sent(JoinFrame(guild, channel)))
      && (after[id].status == Errored <==> h.Failed?)
      && (after[id].status == Connecting <==> h.Pending?)
  {
    var h := Handshake(token, guild, channel, transport, inbound);
    if h.Joined? {
      JoinedLog(token, guild, channel, transport, inbound);
    }
  }

  /** A full connect for a pair not currently connected whose handshake joins: the key then reads connected,
      and a second connect for the same pair is suppressed and changes nothing. */
  lemma SecondConnectSuppressed(sessions: Registry, token: string, guild: string, channel: string, transport: Transport, inbound: seq<Inbound>)
    requires token != "" && guild != "" && channel != ""
    requires VcStatus(sessions, ConnectionId(guild, channel)) != Some(Connected)
    requires Handshake(token, guild, channel, transport, inbound).Joined?
    ensures var (launched, reply) := VcConnect(sessions, Some(token), Some(guild), Some(channel));
      && reply.Launched?
      && var joined := RecordHandshake(launched, reply.id, guild, channel, Handshake(token, guild, channel, transport, inbound));
      && VcStatus(joined, reply.id) == Some(Connected)
      && VcConnect(joined, Some(token), Some(guild), Some(channel)) == (joined, AlreadyConnected(reply.id))
  {
  }

  /** A dropped socket after joining ends the keep-alive loop and closes the socket, but
      nothing rewrites the record: it still reads connected, so later connects for the pair
      are suppressed until a disconnect. */
  lemma StaleAfterDrop(sessions: Registry, token: string, guild: string, channel: string, rest: seq<Inbound>, connected: seq<bool>)
    requires token != "" && guild != "" && channel != ""
    requires |connected| == |rest| + 1
    requires var id := ConnectionId(guild, channel);
      id in sessions && sessions[id] == Session(Connected, Some(Target(guild, channel)), None)
    requires KeepAlive(rest, connected, 0).ReadRaised?
    ensures ClosesSocket(KeepAlive(rest, connected, 0))
    ensures VcConnect(sessions, Some(token), Some(guild), Some(channel)).1 == AlreadyConnected(ConnectionId(guild, channel))
  {
  }

  /** A disconnect is seen by the keep-alive loop: if every status check from the `m`-th
      on reads the record `/vc/disconnect` left, the loop has ended by check `m` and closes
      the socket. */
  lemma DisconnectEndsKeepAlive(sessions: Registry, id: string, rest: seq<Inbound>, connected: seq<bool>, m: nat)
    requires id in sessions
    requires |connected| == |rest| + 1 && m <= |rest|
    requires forall k :: m <= k <= |rest| ==>
      connected[k] == (VcStatus(VcDisconnect(sessions, id).0, id) == Some(Connected))
    ensures var e := KeepAlive(rest, connected, 0);
      && ClosesSocket(e)
      && e.consumed <= m
  {
    assert !connected[m];
  }
}
