# Titan's typing tool: a Dafny model of its core

The tool posts the lines of an uploaded text file to a chat channel one by one. It can also
hold a voice-channel presence over the chat platform's real-time gateway. This project
models the logic under the web routes, threads and sockets of `app.py`. The model has
four parts:

- **Line preparation** (`text.dfy`, `lines.dfy`). The upload is split on `'\n'`, each
  piece is stripped with Python's `str.strip()`, and blank pieces are dropped. `Text`
  gives exact models of `str.split` with a one-character separator and of `str.strip()`.
  `str.strip()` removes the characters `str.isspace()` accepts.
- **The typing job** (`typing.dfy`, `jobs.dfy`). This covers the job record, its creation
  by `/start`, and `typing_worker` as a pure function. Each send's result comes from the
  oracle `results`: delivered (status 200), refused (another status), or raised (the
  `requests.post` call raised or never returned). Whether a `/stop` had landed when the status is read comes from the
  oracle `stopSeen`: one read per loop boundary, plus the read after the loop. Each pause
  is a `Slept` event. The `/status` and `/stop` handlers act on the job registry.
- **The gateway handshake** (`gateway.dfy`). `connect_to_vc` is a function over an
  abstract sequence of inbound reads. Each read is a dropped socket, a non-object, or a
  frame with its `t` and `heartbeat_interval`. Whether connecting and the two sends
  succeed comes from a `Transport` oracle. The result is an action log: hello consumed,
  heartbeat started, identify (op 2), frames read until the first READY, then the voice
  state update (op 4). The keep-alive loop after joining is modelled as well.
- **The session registry** (`sessions.dfy`). This covers the connection id
  `vc_{guild}_{channel}` and the `/vc/connect`, `/vc/disconnect` and `/vc/status` handlers.
  It also covers what `connect_to_vc` writes to a record once the handshake outcome is
  known.

Threads are replaced by explicit oracles and by separate steps on the registry maps. A
handler's reply is a datatype, not JSON with an HTTP status code.

Behaviour of `app.py` worth knowing:

- A job completes exactly when every send is delivered, every pause returns, and no stop
  is read, the read after the last line included (`Typing.WorkCompletesIff`).
- `time.sleep` raises for a negative delay (ValueError) and for a delay above 9223372036
  seconds (OverflowError). The worker thread then dies, and the job stays `running` after
  its first line (`Typing.WorkSleepRaisedStalls`).
- `send_discord_message` has no `try` and no timeout. A `requests.post` that raises kills
  the worker thread, and one that never returns blocks it. Either way the job stays
  `running` with no error (`Typing.WorkSendRaisedStalls`).
- The hello frame's opcode is never checked. Any object that carries
  `d.heartbeat_interval` serves as the hello.
- A read that raises after joining ends the keep-alive loop and closes the socket. The
  record still reads `connected`, so later connects for the pair are suppressed
  (`Sessions.StaleAfterDrop`).
- The socket can be closed twice: once by `/vc/disconnect` and once by the keep-alive
  loop.
- A stop that lands before the worker starts is overwritten by the worker's `running`
  (`Jobs.StopBeforeWorkerIsLost`).

## Model

| member | source | states |
|---|---|---|
| Text.Strip | app.py:148 | `line.strip()`: the input is an all-whitespace prefix, then the result, then an all-whitespace suffix, and the result has no whitespace at either end |
| Text.Split | app.py:148 | `content.split('\n')`: there is at least one piece, no piece contains the separator, and joining the pieces with the separator gives back the input |
| Text.SplitJoin | app.py:148 | splitting undoes joining for separator-free pieces, so the split is unique |
| Text.SplitAppend | app.py:148 | the pieces of `a + '\n' + b` are the pieces of `a` followed by the pieces of `b` |
| Lines.KeepNonBlank | app.py:148 | the filter `if line.strip()` keeps at most one line per piece, and each kept line is non-empty and stripped |
| Lines.PrepareLines | app.py:147-148 | every prepared line is non-empty and has no leading or trailing whitespace |
| Lines.PreparedLinesAreStrippedPieces | app.py:148 | a string is a prepared line exactly when it is non-empty and some piece of the split strips to it (both directions) |
| Lines.PreparedLinesAreClean | app.py:148 | no prepared line is empty, contains a newline, or starts or ends with whitespace |
| Lines.PrepareOneLine | app.py:148 | text with no newline gives its stripped self as the only line, or no line when it is blank |
| Lines.PrepareAppend | app.py:148 | the lines of `a + '\n' + b` are the lines of `a` followed by the lines of `b`, so input order is kept |
| Typing.NewJob | app.py:154-160 | a fresh record is starting, has sent nothing, has an empty `last_message` and no error, keeps the requested delay, and has a total equal to the line count |
| Typing.Loop | app.py:113-131 | the loop from index i: each state it writes has `current` equal to the number of lines begun and the line begun as `last_message`; `total` and `delay` are untouched |
| Typing.LoopSends | app.py:113-120 | the lines the loop sends from index i are the next input lines, one per state it writes |
| Typing.Work | app.py:107-131 | the worker's written states have status running and `current` 0, 1, 2, …; it sent exactly the first `current` lines in input order; `total` is untouched |
| Typing.ScheduleShape | app.py:127-128 | an undisturbed schedule sends every line in order, pauses one time fewer than it sends, and ends with a send |
| Typing.WorkAllSucceed | app.py:113-131 | all sends are delivered, no stop arrives, and every pause returns (a single line, or a delay in 0..9223372036): the final status is completed, `current == total`, the last line is `last_message`, all lines are sent in order, with exactly `len - 1` pauses |
| Typing.WorkFirstFailure | app.py:117-125 | the first undelivered send is at i, every pause before it returns (there is none, or the delay lies in 0..9223372036), and it is refused (status other than 200): the final status is error with the fixed text, `current == i+1`, `last_message == lines[i]`, and exactly lines 0..i were sent |
| Typing.WorkCompletesIff | app.py:113-131 | the final status is completed exactly when every send is delivered, every pause returns (at most one line, or a delay in 0..9223372036) and no status read, the one after the loop included, sees stopped (both directions) |
| Typing.WorkHonoursStop | app.py:113-131 | once the status reads stopped at boundary k, no line from k on is sent and the job never becomes completed |
| Typing.WorkFirstStop | app.py:113-131 | the first stop is read at boundary k, every send before it was delivered, and every pause before it returns (there is none, or the delay lies in 0..9223372036): the final status is stopped, `current == k`, and exactly the first k lines were sent |
| Typing.WorkSendRaisedStalls | app.py:117-125 | the first undelivered send is at i, every pause before it returns (there is none, or the delay lies in 0..9223372036), and it raises: the worker thread dies and the record stays running with `current == i+1`, `last_message == lines[i]`, no error written, and exactly lines 0..i sent |
| Typing.WorkSleepRaisedStalls | app.py:127-128 | with a negative delay or one above 9223372036 s and two or more lines, the sleep after the first send raises and the record stays running with `current == 1` |
| Typing.WorkProgressBounded | app.py:107-131 | over a job created from the same lines, `current` never decreases and never exceeds `total` in any state the worker writes |
| Typing.WorkFollowsLifecycle | app.py:107-131 | the status goes starting → running → {completed, error, stopped}; a run ends with status running exactly when a sleep or a send raised |
| Typing.ScenarioAllSent | app.py:107-131 | `["a","b","c"]` with every send succeeding ends completed with `current == 3` and `last_message == "c"` |
| Typing.ScenarioSecondFails | app.py:107-131 | the same lines with the second send failing end in error with `current == 2` and `last_message == "b"` |
| Jobs.StartTyping | app.py:137-166 | `/start` rejects a request without a file (no file) or with no non-blank line (empty file), and creates nothing then; otherwise it stores one new record under the job id, leaves other jobs alone, and reports the line count |
| Jobs.StartCreatesFreshJob | app.py:153-160 | a created job is starting, with `current == 0`, an empty `last_message`, `total` equal to the line count, the requested or default (60) delay, and no error |
| Jobs.StartedWorkerSendsPreparedLines | app.py:147-164 | the worker of a started job sends the prepared lines of the upload in order, and its `current` stays within the announced total |
| Jobs.GetStatus | app.py:168-172 | `/status` returns the stored record, or not-found exactly for an unknown id |
| Jobs.StopTyping | app.py:174-179 | `/stop` sets a known job's status to stopped whatever it was and changes nothing else; for an unknown id it reports not-found and changes nothing |
| Jobs.StopBeforeWorkerIsLost | app.py:107-111 | a stop written while the job is still starting is overwritten by the worker's running status |
| Gateway.Handshake | app.py:39-93 | a socket that does not open fails with nothing done; any non-empty log starts with the hello read; a joined handshake has at least five actions, ends with the voice state update, and leaves a proper suffix of the reads unconsumed |
| Gateway.AwaitReady | app.py:70-74 | waiting for READY stops at the first READY frame or at the first read that raises; every frame before that point is an ordinary non-READY frame and is discarded |
| Gateway.JoinedIff | app.py:39-93 | the handshake joins exactly when the socket opens, the hello carries a heartbeat interval, both sends go through, and a READY frame arrives with no failed read before it |
| Gateway.JoinedLog | app.py:43-86 | a joined handshake consumed the hello, started the heartbeat, sent identify, discarded every frame before the first READY, read it, and then sent the muted and deafened voice state update for the requested guild and channel |
| Gateway.VoiceOnlyAfterIdentifyAndReady | app.py:52-86 | in every outcome, a voice state update (op 4) is sent only by a joined handshake, as its last action, after the identify (op 2) and right after the first READY frame, with self_mute and self_deaf true; nothing else is sent |
| Gateway.KeepAlive | app.py:95-102 | the keep-alive loop ends at the first status check that no longer reads connected or at the first read that raises; every frame before that is discarded, and a loop still blocked last read connected |
| Sessions.ConnectionId | app.py:191 | the key is `vc_` followed by the guild, `_`, and the channel, so it is computed from the pair alone |
| Sessions.ConnectionIdInjective | app.py:191 | for guild ids with no `_`, two keys are equal exactly when the pairs are equal |
| Sessions.ConnectionIdCollision | app.py:191 | without that restriction, `("1_2","3")` and `("1","2_3")` share a key |
| Sessions.VcConnect | app.py:181-209 | missing fields are rejected; a connected key gives already_connected and the registry is unchanged; otherwise the key's record is rewritten as connecting and nothing else changes |
| Sessions.VcStatus | app.py:227-231 | the record's status, or not-found exactly for an unknown key |
| Sessions.VcDisconnect | app.py:211-225 | a known record gets status disconnected with its other fields kept, and its socket is closed exactly when it has one; an unknown key reports not-found and changes nothing |
| Sessions.DisconnectAllowsReconnect | app.py:191-197 | after a disconnect, the key reads disconnected and the next connect for the pair is launched, not suppressed |
| Sessions.RecordHandshake | app.py:88-105 | the handshake writes only its own key: a failure writes `{status: error, error: cause}`, a join writes `{status: connected}` with the guild and channel, and a still-blocked read writes nothing |
| Sessions.ConnectedOnlyAfterVoiceUpdate | app.py:76-105 | from the connecting record, the key reads connected exactly when the handshake joined, and then the voice state update was its last action; it reads error exactly when the handshake failed |
| Sessions.SecondConnectSuppressed | app.py:191-195 | after a joined handshake, the key reads connected, and a second connect for the same pair gives already_connected and changes nothing |
| Sessions.StaleAfterDrop | app.py:95-102 | a read that raises after joining closes the socket, but the record still reads connected, so connects for the pair are suppressed |
| Sessions.DisconnectEndsKeepAlive | app.py:96-102 | if the loop's status checks from the m-th on read the record `/vc/disconnect` left, the loop ends by check m and closes the socket |

## Left out

- Flask routing, request parsing, JSON bodies and HTTP status codes (app.py:133-235).
  Each handler is modelled only by its effect on the registries and by a reply datatype.
- The chat API call `send_discord_message` (app.py:18-26). It is a network request, so its
  result is the oracle `results`. A call that never returns is folded into `Raised`: the
  record is the same, and only the blocked thread differs.
- The heartbeat loop `vc_heartbeat` (app.py:28-35). It is timing behaviour in its own
  thread; the model records only that it started, and with which interval.
- Threads and the 2-second grace wait in `/vc/connect` (app.py:48-50, 162-164, 199-204).
  Concurrency becomes oracles (`stopSeen`, the keep-alive loop's `connected`) and separate
  registry steps. Which handshake state `/vc/connect` reports depends on timing, so it is
  the `Sessions.VcStatus` read of whatever registry state exists after the wait.
- Races between a handler and a worker thread are not modelled beyond the cases named
  above. One such race: the connected write at app.py:88 can overwrite a disconnect that
  landed during the handshake.
- UTF-8 decoding of the upload (app.py:147): the model starts from the decoded text.
- Parsing the delay with `int()` (app.py:141): the delay arrives as an optional integer
  with default 60. A non-numeric value raises in the source, and the model does not
  cover that.
- The clock-derived job id (app.py:153): the id is a parameter. Two jobs started in the
  same second share an id, and the later one replaces the earlier record (a map update).
- The port read from the environment (app.py:234).
- Whether the socket is closed on the handshake's error path (app.py:104-105). It depends
  on the socket's lifetime, not on sequential logic.
- A `ws.close()` that raises in the keep-alive path, which the handler at app.py:104
  would turn into an error record.
- JSON value types: the guild and channel ids are modelled as strings, and a frame's `t`
  is either some string or absent. A hello's `heartbeat_interval` is an integer or absent;
  a present non-integer value (null, a float, a string) is not modelled. app.py:45
  accepts it, and only the heartbeat thread dies on it (app.py:32-35). The exception text `str(e)` becomes the `Cause`
  datatype.
