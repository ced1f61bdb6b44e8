# Alacritty single-instance IPC and takeover overlay, modelled in Dafny

This project models three pieces of Alacritty's IPC and takeover code and
proves properties about them.

- **The IPC socket** (`alacritty/src/ipc.rs`). A running instance names its
  socket `<prefix>-<pid>.sock`, where the prefix is `Alacritty-` followed by
  the session's display with `/` replaced by `-`. It exports the socket path
  as `ALACRITTY_SOCKET`, binds the socket, and runs a listener. The listener
  reads one line per connection, decodes it into a `SocketMessage`, and
  turns it into an event for the window event loop. A sending process runs
  `find_socket`, which tries three things in order: an explicit path, then
  the exported variable, then a scan of the socket directory. The scan
  deletes sockets that refuse connections. The sender then writes the
  encoded message.
- **The takeover** (`alacritty/src/takeover/mod.rs`). This covers the
  `image:<absolute path>` payload parser and the `active` / `renderer`
  state machine, driven by requests, key presses and window events.
- **The takeover quad's vertex layout** (`alacritty/src/takeover/quad.rs`).
  This covers the attribute list, the stride and the offsets that
  `enable_attrs` passes to OpenGL.

The operating system is an input to the model:

- connecting, binding, reading the directory, the stream contents,
  decoding, encoding, writing, "is this a regular file" and "can an image
  renderer be built" are function parameters (oracles);
- the environment is a map;
- the socket directory and the process id are parameters.

The model returns what the code does as values, in order:

- `find_socket` and `send_message` return a trace of effects (connect,
  remove, write, flush);
- the listener returns the list of events it sent;
- `enable_attrs` returns the list of OpenGL calls it would make.

Integer widths are modelled explicitly:

- `u64::try_from` accepts `0 <= id < 2^64`;
- `quad.rs` arithmetic is `u32` and wraps, as in an optimised build;
- every `as i32` cast reinterprets the low 32 bits.

Files:

- `base.dfy`: `Option`, `Result`, prefix and suffix tests.
- `socket_naming.dfy` (module `SocketNaming`): socket prefix, default name,
  path joining, the scan's file-name filter.
- `protocol.dfy` (module `Protocol`): socket messages, events, window-id
  conversion.
- `socket_discovery.dfy` (module `SocketDiscovery`): `find_socket`,
  `send_message`.
- `socket_listener.dfy` (module `SocketListener`): `spawn_ipc_socket`, the
  listener loop, dispatch.
- `takeover.dfy` (module `Takeover`): `TakeoverEvent::try_from` and the
  `Takeover` state machine.
- `takeover_quad.dfy` (module `TakeoverQuad`): `Quad`, `attr`,
  `get_stride`, `enable_attrs`.

### Behaviour the model follows as the code has it

- A `Config` message whose window id is negative, or too large for a
  `u64`, is still sent to the event loop, with no window id. The event loop
  then applies it to every window. It is not dropped
  (`NegativeConfigIdBroadcasts`).
- A `Takeover` message whose id does not fit a `u64`, or whose payload does
  not parse, is dropped silently.
- `send_message` writes the encoded message with no line terminator. It
  ignores the result of the flush. A write error is returned to the caller.
- The scan's filter is a plain prefix match, so it does not keep sessions
  apart. The scan for display `:1` accepts the socket of display `:10`
  (`PrefixFilterCrossesSessions`). With no display set, the scan accepts
  every session's socket (`EmptyDisplayMatchesEverySession`).
- `enable_attrs` passes each attribute's element size in bytes as the
  `size` argument of `glVertexAttribPointer`, not its element count. For
  the image quad that is 4 where the attribute has 2 components
  (`ImageQuad`). OpenGL reads that argument as a component count. The model
  records the call exactly as written.

## Model

| member | source | states |
|---|---|---|
| SocketNaming.ReplaceChar | alacritty/src/ipc.rs:184 | `display.replace('/', "-")`: same length, each '/' becomes '-', every other character is kept |
| SocketNaming.Display | alacritty/src/ipc.rs:183 | the session's display: WAYLAND_DISPLAY when set, else DISPLAY, else the empty string (the precedence is stated by DisplayPrecedence) |
| SocketNaming.SocketPrefix | alacritty/src/ipc.rs:181-191 | outside macOS: "Alacritty-" followed by the display with '/' made '-', and no '/' after the "Alacritty-"; on macOS: "Alacritty"; never contains '/' |
| SocketNaming.DisplayPrecedence | alacritty/src/ipc.rs:183 | WAYLAND_DISPLAY wins over DISPLAY; the display is empty when both are unset |
| SocketNaming.PrefixIgnoresSocketVariable | alacritty/src/ipc.rs:182-184 | exporting ALACRITTY_SOCKET does not change the prefix, so a child computes the same prefix |
| SocketNaming.DecimalString | alacritty/src/ipc.rs:28 | the pid is printed as a non-empty string of decimal digits with no leading zero |
| SocketNaming.DecimalRoundTrip | alacritty/src/ipc.rs:28 | reading back the printed pid gives the pid |
| SocketNaming.DefaultSocketName | alacritty/src/ipc.rs:28 | `format!("{}-{}.sock", prefix, pid)`: its length is the prefix plus a dash, the pid's digits and ".sock"; with a prefix free of '/' the name holds no '/', so it stays inside the socket directory |
| SocketNaming.Join | alacritty/src/ipc.rs:28 | `PathBuf::push`: an absolute name replaces the directory, an empty directory becomes the name, otherwise exactly one '/' separates them (injectivity is stated by JoinInjective) |
| SocketNaming.SocketPath | alacritty/src/ipc.rs:26-30 | the path bound by `spawn_ipc_socket`: the configured socket verbatim, else the default name pushed onto the socket directory |
| SocketNaming.IsSocketCandidate | alacritty/src/ipc.rs:153-157 | the scan's filter: a file name starts with the session prefix and ends with ".sock" |
| SocketNaming.DefaultNameIsCandidate | alacritty/src/ipc.rs:26-30 | the default name `prefix-pid.sock` passes the scan's filter (starts with the prefix, ends with ".sock") in the same session |
| SocketNaming.DistinctPidsDistinctNames | alacritty/src/ipc.rs:28 | different pids in one session give different default socket names |
| SocketNaming.JoinInjective | alacritty/src/ipc.rs:148-149 | relative names joined to the same directory give the same path only when the names are equal |
| SocketNaming.PrefixFilterCrossesSessions | alacritty/src/ipc.rs:153-157 | with different prefixes for displays ":1" and ":10", the ":1" filter still accepts the ":10" socket: sessions are not isolated |
| SocketNaming.EmptyDisplayMatchesEverySession | alacritty/src/ipc.rs:183-184 | with neither display variable set, the filter accepts every session's default socket name |
| Protocol.TryIntoU64 | alacritty/src/ipc.rs:71 | `u64::try_from(id).ok()` is Some exactly when 0 <= id < 2^64, and then it is the id |
| SocketDiscovery.FindSocket | alacritty/src/ipc.rs:129-175 | the method's result and effect trace equal the specification `FindSocketSpec`: the explicit path alone, else the variable, else the scan |
| SocketDiscovery.ScanDirectory | alacritty/src/ipc.rs:148-174 | the loop over directory entries, with early return and removals, equals the scan specification `Scan` |
| SocketDiscovery.SendMessage | alacritty/src/ipc.rs:102-110 | errors from the lookup, the encoding and the write go to the caller; on success exactly the encoded bytes are written, with no terminator, then flushed, and the flush result is ignored |
| SocketDiscovery.ExplicitPathOnly | alacritty/src/ipc.rs:131-137 | with an explicit path only that path is tried; the result is Ok exactly when it connects; otherwise the error kind is the one connect gave |
| SocketDiscovery.VariableShortCircuits | alacritty/src/ipc.rs:140-145 | a live socket named by ALACRITTY_SOCKET is returned after one connect, with nothing removed |
| SocketDiscovery.VariableFailureSwallowed | alacritty/src/ipc.rs:140-148 | a failed connect to the variable's path is recorded and swallowed; the scan then decides the result |
| SocketDiscovery.CandidateOf | alacritty/src/ipc.rs:148-160 | an entry yields a path exactly when it is readable and its name passes the filter, and that path is the directory joined with the name (`entry.path()`) |
| SocketDiscovery.CandidateOrigin | alacritty/src/ipc.rs:151-160 | every scan candidate is the directory joined with a listed name that passes the prefix and ".sock" filter |
| SocketDiscovery.ScanFindsFirstLive | alacritty/src/ipc.rs:148-174 | the scan returns the first candidate in listing order that accepts a connection, and NotFound ("no socket found") when none does ; "first" and "none" are FirstLive's, whose meaning BeforeFirstLiveAllFail states |
| SocketDiscovery.BeforeFirstLiveAllFail | alacritty/src/ipc.rs:162-171 | every candidate before the one FirstLive picks fails to connect; with FirstLive's own contract, the pick is the first live candidate, and when it is past the end no candidate connects |
| SocketDiscovery.ScanEffects | alacritty/src/ipc.rs:162-171 | the scan connects to the candidates in order, up to and including the first live one; the removed paths are exactly the refused ones among those, in order |
| SocketDiscovery.ScanTouchesOnlyCandidates | alacritty/src/ipc.rs:151-160 | every effect of the scan is a connect or a remove of a candidate: entries failing the filter are never touched |
| SocketDiscovery.ScanTriesAndRemovesEachOnce | alacritty/src/ipc.rs:148-171 | for a listing without repeated names, no candidate is connected to twice in one scan (a refusing socket is never retried) and no orphaned socket is removed twice |
| SocketListener.ReadLine | alacritty/src/ipc.rs:48 | `read_line` takes a prefix of the stream: up to and including the first line feed, or all of it when there is none |
| SocketListener.Handle | alacritty/src/ipc.rs:44-63 | a failed accept, a read error or an empty read sends nothing; a stream whose first line decodes gives exactly the dispatch of the decoded message, and no other item gives an event |
| SocketListener.Dispatch | alacritty/src/ipc.rs:63-94 | CreateWindow is always sent, with no window; Config is always sent, with a window exactly when its id is in 0..2^64; Takeover is sent exactly when its id is in 0..2^64 and its payload parses |
| SocketListener.Listen | alacritty/src/ipc.rs:42-96 | the listener loop, with its buffer cleared on each connection, sends exactly `Dispatched` of the incoming connections, in order |
| SocketListener.DispatchedAppend | alacritty/src/ipc.rs:44 | connections are served one after another: the events for a+b are those for a followed by those for b |
| SocketListener.AtMostOneEventEach | alacritty/src/ipc.rs:44-95 | no more events are sent than connections arrive |
| SocketListener.BadConnectionsDoNotStopListener | alacritty/src/ipc.rs:48-60 | after any run of empty, failed or undecodable connections, the next connection's event is still sent, and it is the only one |
| SocketListener.FruitlessConnections | alacritty/src/ipc.rs:44-60 | a failed accept, a read error, an empty read and an undecodable line each send nothing |
| SocketListener.NegativeConfigIdBroadcasts | alacritty/src/ipc.rs:68-75 | a Config message with a negative window id is sent with no window id; it is not dropped |
| SocketListener.SpawnIpcSocket | alacritty/src/ipc.rs:24-39 | the socket path is the configured one verbatim, else `dir/prefix-pid.sock`; it is exported as ALACRITTY_SOCKET even when binding fails; no other variable changes; a path is returned exactly when binding works |
| SocketListener.ChildReachesSpawnedSocket | alacritty/src/ipc.rs:139-145 | a sender started from the spawned instance's environment, given no path, reaches that socket on its first connect |
| SocketListener.SpawnedSocketIsScanCandidate | alacritty/src/ipc.rs:26-30 | the default socket file of an instance is a scan candidate for a sender in the same session, whatever the exported variable says |
| SocketListener.SentMessageIsDispatched | alacritty/src/ipc.rs:105-107 | encoded bytes with no line feed arrive as exactly one line, so when decoding inverts encoding the listener dispatches the sent message |
| SocketListener.CreateWindowScenario | alacritty/src/ipc.rs:64-67 | one connection carrying a CreateWindow request with cwd /tmp sends exactly one event: that request, to no window |
| Takeover.TryFrom | alacritty/src/takeover/mod.rs:126-140 | succeeds exactly when the value starts with "image:" and the rest is absolute and names a file; the result is "image:" stripped once |
| Takeover.IsAbsolute | alacritty/src/takeover/mod.rs:132 | `Path::is_absolute` on Unix: the path starts with '/' |
| Takeover.ImageRequestRoundTrip | alacritty/src/takeover/mod.rs:126-136 | "image:" + p parses to Image(p) when p is absolute and names a file |
| Takeover.SchemeStrippedOnce | alacritty/src/takeover/mod.rs:127-134 | "image:image:..." is rejected: only one scheme is removed and the rest is not absolute |
| Takeover.Takeover.constructor | alacritty/src/takeover/mod.rs:33-40 | `default`: inactive with no renderer |
| Takeover.Takeover.Update | alacritty/src/takeover/mod.rs:49-71 | changes nothing while active; otherwise drops the old renderer, and becomes active with the new renderer exactly when one can be created; keeps active ⇒ renderer |
| Takeover.Takeover.Render | alacritty/src/takeover/mod.rs:43-47 | while active, the invariant guarantees a renderer to draw, so the unwrap is safe |
| Takeover.Takeover.Exit | alacritty/src/takeover/mod.rs:77-81 | deactivates, leaves the renderer alone, and keeps active ⇒ renderer |
| Takeover.Takeover.KeyInput | alacritty/src/takeover/mod.rs:83-94 | Escape exits; '[' exits exactly when Ctrl or the logo key is held; any other key leaves the state unchanged |
| Takeover.Takeover.HandleWindowEvent | alacritty/src/takeover/mod.rs:96-108 | a non-synthetic key goes to key handling; synthetic input, resizes and other events leave the takeover active; the renderer is never changed |
| TakeoverQuad.AsI32 | alacritty/src/takeover/quad.rs:90-97 | `as i32` on a u32 keeps values below 2^31 and maps the others to value - 2^32 |
| TakeoverQuad.FoldStride | alacritty/src/takeover/quad.rs:133-137 | the u32 fold from an accumulator equals the accumulator plus the total attribute size, modulo 2^32 |
| TakeoverQuad.Quad.GetStride | alacritty/src/takeover/quad.rs:133-137 | the stride is the sum over attributes of elem_size * elem_count, modulo 2^32 |
| TakeoverQuad.Quad.constructor | alacritty/src/takeover/quad.rs:26-32 | before the callback runs there are no attributes, and the index count is `indices.len() as i32` |
| TakeoverQuad.Quad.Attr | alacritty/src/takeover/quad.rs:71-80 | appends exactly one attribute, at the end, with the given index, count and kind and the type's size; earlier attributes are unchanged |
| TakeoverQuad.Quad.EnableAttrs | alacritty/src/takeover/quad.rs:84-105 | attributes in insertion order, two calls each: a pointer call with the index, elem_size as the size, the common stride, and an offset equal to the total size of the attributes before it; then the enable call for that index |
| TakeoverQuad.Quad.New | alacritty/src/takeover/quad.rs:22-69 | the callback's attributes are recorded in order, then enabled with offsets and stride as in EnableAttrs |
| TakeoverQuad.OffsetAdvance | alacritty/src/takeover/quad.rs:101 | each offset is the previous one plus the previous attribute's size, in u32 |
| TakeoverQuad.FinalOffsetIsStride | alacritty/src/takeover/quad.rs:84-105 | for every attribute list, wrapping included, the offset reached after the last attribute equals the stride `get_stride` returns |
| TakeoverQuad.OffsetsWithinStride | alacritty/src/takeover/quad.rs:85-102 | with no wrap-around, each offset is the exact prefix sum, no offset exceeds the stride, and the offset after the last attribute equals the stride |
| TakeoverQuad.ImageQuad | alacritty/src/takeover/renderer/img.rs:103-111 | the image quad (two f32 pairs, six indices) has stride 16, offsets 0 and 8, size argument 4 and index count 6 |

## Left out

- `socket_dir` (XDG runtime directory, `create_dir_all`, temporary-directory fallback): the directory is a parameter.
- Real sockets and files: `UnixListener::bind`, `UnixStream::connect`, `read_line`, `write_all`, `flush`, `fs::read_dir`, `fs::remove_file` and `env::set_var` are oracles or recorded effects. A removal is recorded when it is attempted; its own failure is ignored, as the code ignores it.
- The listener thread: `thread::spawn_named` and the unbounded `incoming()` loop are modelled as the loop over a finite sequence of incoming items.
- serde_json: decoding and encoding are parameters, and no JSON round trip is claimed. An encoding failure becomes an `InvalidData` error, which is how serde_json errors of this kind convert into `io::Error`.
- `SocketMessage`, `WindowOptions` and `IpcConfig` come from `alacritty/src/cli.rs`, which is not part of this model. Their fields are carried as opaque values. The window id is an unbounded integer and only its `u64` conversion is modelled.
- `EventLoopProxy::send_event` and `WindowId::from`: an event is appended to the returned list. A send error is ignored, as in the code.
- Error message text is replaced by an `ErrorContext` tag.
- Environment values and file names that are not UTF-8: a variable that `env::var` cannot read counts as unset, and a name that `to_str` cannot convert counts as an unreadable entry.
- Takeover rendering: `ImageRenderer::create` is a predicate on the path, and a renderer is identified by its image path. Drawing and `display.window.request_redraw()` are not modelled.
- Takeover.Takeover.HandleWindowEvent: on a resize, the renderer's uniform update (`calculate_img_scale`, `f32` arithmetic) is not modelled. The contract states only that the takeover's own state is unchanged.
- `Quad`: creating the GL vertex array and buffers, uploading data, `bind`, `unbind`, `draw` and `Drop` are OpenGL calls and are not modelled. The `add_attrs` callback is modelled as the list of `attr` calls it makes.
- Logging: the `warn!` calls at `alacritty/src/ipc.rs:36` and `alacritty/src/ipc.rs:57` and the `error!` call at `alacritty/src/takeover/mod.rs:66` write only to the log and change no state, so they are not modelled.
- Takeover.Takeover.Valid: `active` is a public field (`alacritty/src/takeover/mod.rs:22`). The invariant `active ⇒ renderer` holds only while code outside `Takeover` does not set `active` itself; that code is not part of this model, so the invariant is a requirement on it.
- The `takeover` cargo feature is taken as enabled: the `Takeover` message variant, its dispatch arm and the `TakeoverEvent` import exist only under `#[cfg(feature = "takeover")]` (`alacritty/src/ipc.rs:17-18`, `alacritty/src/ipc.rs:76-77`), and the model always includes them.
- `u32` overflow in `quad.rs` is modelled as wrap-around, which is what an optimised build does. A debug build panics instead.
- `alacritty/src/takeover/shader.rs`, `alacritty/src/takeover/texture.rs` and the rest of `renderer/img.rs` are thin OpenGL wrappers and image decoding, and are not modelled.
