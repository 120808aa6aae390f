# AKON chat framing and engine life cycle, in Dafny

AKON is a serverless LAN chat: every node broadcasts its messages as UDP
datagrams and shows what the other nodes broadcast. This project models the
part of it that is logic rather than presentation:

- the wire text of a message, `node_id + ": " + message` (`Network.Encode`);
- how an incoming packet is filtered and split (`App.Decode`, built from
  `App.FromSelf`, `App.SenderOf` and `App.BodyOf`): a packet starting with
  this node's id and `:` is dropped; the sender is the text before the first
  `:` (or the source address when there is none); the body is the text after
  the first `": "` (or the whole packet). The two splits use different
  delimiters, and the model keeps them different;
- the session and send guards of the application object (`App.AkonApp`):
  the identity `user_id.strip() or "Node_X"`, the screen switch on a
  successful start, the blank-text guard and the clear-on-success of the send
  button, the bubble added per delivered packet;
- the engine's life cycle (`Network.AkonNetwork`): construction, `Start`
  (bind, then thread start), `Broadcast`, the listen loop and `Stop`, over an
  abstract socket whose bind, send and receive outcomes are parameters.

Python's string operations (`isspace`, `strip`, `in`, `split`) are written
out in module `Text`; `Config` holds the port, broadcast address and buffer
size.

The main results: decoding inverts encoding exactly when the identity holds
no `:` (`App.EncodedSenderIff`, `App.EncodedBodyIff`, `App.RoundTrip`); for
colon-free identities the self filter drops a packet exactly when its parsed
sender is this node, so a node never shows its own broadcasts and drops those
of any node sharing its identity (`App.FilterMatchesSender`,
`App.DecodeEncoded`, `App.OwnBroadcastSuppressed`); the listen loop calls back
once per received packet, in order, and stops for good at the first failure
(`Network.Accepted`, `Network.NoRetryAfterFailure`,
`Network.AkonNetwork.ListenLoop`).

The socket and thread are an oracle: `Start(bindOk, threadOk)`,
`Broadcast(.., sendOk)` and `ListenLoop(script)` are told what the operating
system answers. Beyond those answers the model keeps four facts of the
socket layer: binding a closed or already bound socket raises; sending or
receiving on a closed socket raises; and a send through an open socket that
has no local address first binds it to an ephemeral port, so a `Start` after
a `Broadcast` fails at its bind.

Facts about the code that the model keeps as they are:
- `encode` has no length check: a payload longer than `BUFFER_SIZE` is sent
  as it is;
- `start` has no guard against being called twice: in the model a second
  `Start` fails only because the socket is already bound;
- `broadcast` sends whenever the socket is open, whether or not the engine
  has been started;
- the sender is split off on `":"`, while the body is split off on `": "`;
- the self filter tests whether the packet starts with the identity and `:`
  rather than comparing the parsed sender with the identity; the two agree
  only for colon-free identities (`App.FilterMatchesSender`,
  `App.PrefixIdentityShadowed`).

## Model

| member | source | states |
|---|---|---|
| `Text.Strip` | main.py:33 | `strip()` keeps a contiguous run of the input with only whitespace around it, that run neither starts nor ends with whitespace, and it is empty exactly when the input is all whitespace |
| `Text.IndexOf` | main.py:49-50 | the result is the first index at which the pattern occurs, or none when it occurs nowhere |
| `Text.BeforeFirst` | main.py:49 | `split(sep)[0]` is a prefix ending right before the first `sep` (`sep` occurs there and at no earlier index) and holding no `sep`, or the whole string when `sep` is absent |
| `Text.AfterFirst` | main.py:50 | `split(sep, 1)[1]` is the suffix starting right after the first occurrence of `sep` |
| `App.NormalizeId` | main.py:33 | the session identity is never empty, has no leading or trailing whitespace, is `"Node_X"` for an all-whitespace entry and the stripped entry otherwise |
| `App.NormalizeIdIdempotent` | main.py:33 | normalising a normalised identity changes nothing |
| `App.BlankIsEmptyStrip` | main.py:40 | the send guard's test `Blank` (all whitespace) holds exactly when `text.strip()` is empty |
| `App.FromSelf` | main.py:48 | the self filter holds exactly when the packet is longer than the node id, starts with it, and has `:` right after it |
| `App.SenderOf` | main.py:49 | with a `:` in the packet the sender is the prefix before its first `:` and holds no `:`; without one it is the source address |
| `App.BodyOf` | main.py:50 | with a `": "` in the packet the body is the suffix after its first `": "`; without one it is the whole packet |
| `App.Decode` | main.py:48-50 | a packet yields nothing exactly when the self filter holds; otherwise, with a `:` in it, the sender is a colon-free text followed by `:` at the packet's start, without one the sender is the source address; the body is the suffix after the first `": "` (that separator occurs right before it and at no earlier index), or the whole packet when it holds no `": "` |
| `App.SeparatorHoldsColon` | main.py:49-50 | a packet holding `": "` holds `:`, so whenever the body split applies the sender split does too |
| `App.EncodedSenderIff` | main.py:49 | the sender parsed from an encoded message equals the encoding identity if and only if that identity holds no `:` |
| `App.EncodedBodyIff` | main.py:50 | the body parsed from an encoded message equals the message if and only if the identity holds no `": "` |
| `App.RoundTrip` | main.py:49-50 | for an identity without `:`, decoding `s + ": " + m` yields sender `s` and body `m` |
| `App.FilterMatchesSender` | main.py:48-49 | for an identity without `:`, a packet holding a `:` is dropped exactly when its parsed sender is that identity; an identity with a `:` never equals a parsed sender |
| `App.OwnBroadcastSuppressed` | main.py:48 | a node's own broadcast is always dropped, whatever its identity |
| `App.DecodeEncoded` | main.py:48-50 | between colon-free identities a broadcast is dropped exactly by nodes of the same identity and delivered unchanged, sender and body, to every other node |
| `App.SeparatorInIdentityMisparsed` | main.py:49-50 | identity `"a: b"` sending `"hi"` is delivered as sender `"a"` with body `"b: hi"` |
| `App.ColonsInBodyKept` | main.py:50 | `"Eve"` sending `"a:b:c"` is delivered as sender `"Eve"` with body `"a:b:c"`: only the first `": "` splits |
| `App.PrefixIdentityShadowed` | main.py:48 | node `"a"` drops every broadcast of node `"a:b"` as its own |
| `App.AkonApp.constructor` | main.py:21-29 | the app starts with identity `"Node_X"`, no bubbles, and an engine that is created but neither bound nor listening |
| `App.TextInput.constructor` | main.py:37-44 | the text field the send button reads and clears holds the text it was given |
| `App.AkonApp.StartSession` | main.py:31-35 | the identity becomes the normalised entry; the screen becomes `chat_screen` exactly when the engine start succeeded and is unchanged otherwise; exactly then the listener thread is started and alive; `running` and the socket's open state are unchanged |
| `App.AkonApp.SendBroadcast` | main.py:37-44 | blank text sends nothing, adds no bubble and leaves the field as it was; otherwise the text is broadcast under the node's identity, and exactly when that succeeded one `is_me` bubble with the node's identity is added and the field cleared; a non-blank send through an open socket leaves it bound |
| `App.AkonApp.OnIncoming` | main.py:46-53 | a packet from this node adds no bubble; any other adds exactly one, not `is_me`, with the parsed sender and body |
| `Network.Encode` | network.py:32 | the payload is the identity, then `": "`, then the message, with nothing added or cut off |
| `Network.Accepted` | network.py:40-49 | the callbacks for a run of receive outcomes are the received packets in arrival order up to the first failure, and none after it |
| `Network.NoRetryAfterFailure` | network.py:48-49 | once a receive fails, nothing that arrives later is ever delivered |
| `Network.AcceptedConcat` | network.py:42-47 | while every receive succeeds, each packet is delivered and the loop carries on with the next |
| `Network.AkonNetwork.constructor` | network.py:6-18 | a new engine has `running` set and an open socket, but is not bound and its thread is not started |
| `Network.AkonNetwork.Start` | network.py:20-28 | `Start` succeeds exactly when the socket is open and unbound and both the bind and the thread start succeed; only then is the thread started; a bind that succeeded stays when the thread start fails |
| `Network.AkonNetwork.Broadcast` | network.py:30-38 | the result is true exactly when the socket is open and the send succeeds, and only then is the encoded payload sent to the broadcast address and port; a send through an open socket leaves it bound (to an ephemeral port if it had no address); nothing else changes |
| `Network.AkonNetwork.ListenLoop` | network.py:40-49 | with `running` set and the socket open, the loop calls back once per received packet in order and ends the thread at the first failure; otherwise it makes no callback and the thread ends |
| `Network.AkonNetwork.Stop` | network.py:51-54 | after `Stop`, `running` is false and the socket is closed; nothing else changes |

## Left out

- The Kivy UI: bubble widgets, the layout file, scrolling, the keyboard mode and the `try`/`except` around adding a bubble. The chat list is the sequence `bubbles`, and the screen is its name `current`.
- The registration of `on_incoming` as the engine's callback (main.py:27, network.py:11 and 47): the engine records each callback's arguments in `callbacks` instead of calling `App.AkonApp.OnIncoming`, so no contract says that the bubbles shown follow `Decode` applied to what the listen loop delivers; each half is specified on its own (`Network.AkonNetwork.ListenLoop` against `Network.Accepted`, `App.AkonApp.OnIncoming` against `App.Decode`).
- The time stamp on each bubble, because it reads the clock.
- The deferral of a bubble to the UI thread through `Clock.schedule_once`: `OnIncoming` appends at once, so the model does not capture the order between the UI thread and the receive thread.
- Real sockets and threads, and concurrency: `Broadcast` and the listen loop are not interleaved, and the race between `Stop` and a pending receive is not modelled. In the model the loop tests `running` and the socket before each receive, which is what a closed socket produces once the pending receive returns.
- Network.AkonNetwork.ListenLoop: runs over a finite script of receive outcomes; when the script ends without a failure the thread is left alive, blocked in its next receive, and what it receives later is a further call.
- UTF-8 encoding and decoding and the truncation of a datagram at `BUFFER_SIZE`: payloads are strings, and a decode failure is one more receive outcome (`DecodeFailed`). Dafny characters are Unicode scalar values, so the lone surrogates that make Python's `encode('utf-8')` raise cannot occur.
- Failure to create the socket in the engine's constructor, which raises out of the constructor.
- An exception raised by the delivery callback itself, which would also end the loop: the application's callback does not raise.
- The error messages printed on a failed bind, send or UI update.
- Broadcast permissions of the platform: neither main.py nor network.py takes a broadcast-permission lock.
- The theme colours in config.py, which are presentation only.
