/**
 * The receiving side: `spawn_ipc_socket` picks and exports the socket path
 * and binds it; its listener thread then reads one line per accepted
 * connection, decodes it and turns it into an event for the event loop.
 * Binding, the stream contents, decoding and the file-system check behind
 * takeover requests are oracles; the events sent are returned in order.
 */
module SocketListener {
  import opened Base
  import opened SocketNaming
  import opened Protocol
  import Takeover
  import SocketDiscovery

  /** What the listener gets from one item of `listener.incoming()`. */
  datatype Incoming =
    | AcceptFailed              // an `Err` item, dropped by `filter_map(Result::ok)`
    | Stream(content: string)   // a connection whose bytes read as `content`
    | BrokenStream              // a connection whose read fails

  /** `BufRead::read_line`: the bytes up to and including the first line feed, or all of them. */
  function ReadLine(content: string): (line: string)
    ensures line <= content
    ensures '\n' !in content ==> line == content
    ensures '\n' in content ==> |line| > 0 && line[|line| - 1] == '\n' && '\n' !in line[..|line| - 1]
  {
    if content == [] then []
    else if content[0] == '\n' then ['\n']
    else [content[0]] + ReadLine(content[1..])
  }

  /**
   * The event for one decoded message. A window creation always goes out, to
   * no window. A configuration change always goes out: to its window when the
   * id fits a `u64`, to every window otherwise. A takeover goes out only when
   * its id fits a `u64` and its payload parses.
   */
  function Dispatch(message: SocketMessage, isFile: string -> bool): (e: Option<Event>)
    ensures message.CreateWindow? ==> e == Some(Event(CreateWindowEvent(message.windowOptions), None))
    ensures message.Config? ==>
      && e.Some? && e.value.payload == IpcConfigEvent(message.ipcConfig)
      && (e.value.windowId.Some? <==> message.ipcConfig.windowId.Some? && 0 <= message.ipcConfig.windowId.value < U64_LIMIT)
      && (e.value.windowId.Some? ==> e.value.windowId.value == message.ipcConfig.windowId.value)
    ensures message.TakeoverRequest? ==>
      && (e.Some? <==> 0 <= message.takeover.windowId < U64_LIMIT
                       && Takeover.TryFrom(message.takeover.msg, isFile).Some?)
      && (e.Some? ==> e.value == Event(TakeoverEvent(Takeover.TryFrom(message.takeover.msg, isFile).value),
                                       Some(message.takeover.windowId)))
  {
    match message
    case CreateWindow(options) => Some(Event(CreateWindowEvent(options), None))
    case Config(ipcConfig) =>
      var windowId := match ipcConfig.windowId
        case Some(id) => TryIntoU64(id)
        case None => None;
      Some(Event(IpcConfigEvent(ipcConfig), windowId))
    case TakeoverRequest(takeover) =>
      match TryIntoU64(takeover.windowId)
      case None => None
      case Some(id) =>
        match Takeover.TryFrom(takeover.msg, isFile)
        case None => None
        case Some(event) => Some(Event(TakeoverEvent(event), Some(id)))
  }

  /** The event, if any, one item of `incoming()` produces. */
  function Handle(incoming: Incoming, decode: string -> Option<SocketMessage>, isFile: string -> bool): (e: Option<Event>)
    ensures incoming.AcceptFailed? || incoming.BrokenStream? ==> e == None
    ensures incoming.Stream? && ReadLine(incoming.content) == [] ==> e == None
    ensures incoming.Stream? && ReadLine(incoming.content) != [] && decode(ReadLine(incoming.content)).Some? ==>
      e == Dispatch(decode(ReadLine(incoming.content)).value, isFile)
    ensures e.Some? ==>
      && incoming.Stream? && ReadLine(incoming.content) != []
      && decode(ReadLine(incoming.content)).Some?
      && e == Dispatch(decode(ReadLine(incoming.content)).value, isFile)
  {
    match incoming
    case AcceptFailed => None
    case BrokenStream => None
    case Stream(content) =>
      var line := ReadLine(content);
      if line == [] then None
      else
        match decode(line)
        case None => None
        case Some(message) => Dispatch(message, isFile)
  }

  /** The events sent for a run of incoming connections, in acceptance order. */
  function Dispatched(incoming: seq<Incoming>, decode: string -> Option<SocketMessage>, isFile: string -> bool): seq<Event>
  {
    if incoming == [] then []
    else
      var last := incoming[|incoming| - 1];
      Dispatched(incoming[..|incoming| - 1], decode, isFile)
      + (match Handle(last, decode, isFile) case Some(e) => [e] case None => [])
  }

  /**
   * The listener thread's loop over accepted connections, one line each into
   * a buffer that is cleared every time; a connection that yields nothing is
   * skipped and the loop goes on.
   */
  method Listen(incoming: seq<Incoming>, decode: string -> Option<SocketMessage>, isFile: string -> bool)
    returns (sent: seq<Event>)
    ensures sent == Dispatched(incoming, decode, isFile)
  {
    var data: string := [];
    sent := [];
    for i := 0 to |incoming|
      invariant sent == Dispatched(incoming[..i], decode, isFile)
    {
      assert incoming[..i + 1][..i] == incoming[..i];
      assert incoming[..i + 1][i] == incoming[i];
      if incoming[i].AcceptFailed? {
        continue;
      }
      data := [];
      if incoming[i].BrokenStream? {
        continue;
      }
      data := data + ReadLine(incoming[i].content);
      assert data == ReadLine(incoming[i].content);
      if |data| == 0 {
        continue;
      }
      var decoded := decode(data);
      if decoded.None? {
        continue;
      }
      var event := Dispatch(decoded.value, isFile);
      if event.Some? {
        sent := sent + [event.value];
      }
    }
    assert incoming[..|incoming|] == incoming;
  }

  /** Connections are served one after another: the events of a longer run extend those of its start. */
  lemma {:induction false} DispatchedAppend(a: seq<Incoming>, b: seq<Incoming>, decode: string -> Option<SocketMessage>,
                                            isFile: string -> bool)
    ensures Dispatched(a + b, decode, isFile) == Dispatched(a, decode, isFile) + Dispatched(b, decode, isFile)
  {
    if b == [] {
      assert a + b == a;
    } else {
      var init := b[..|b| - 1];
      assert (a + b)[..|a + b| - 1] == a + init;
      assert (a + b)[|a + b| - 1] == b[|b| - 1];
      DispatchedAppend(a, init, decode, isFile);
    }
  }

  /** Each connection produces at most one event. */
  lemma {:induction false} AtMostOneEventEach(incoming: seq<Incoming>, decode: string -> Option<SocketMessage>,
                                              isFile: string -> bool)
    ensures |Dispatched(incoming, decode, isFile)| <= |incoming|
  {
    if incoming != [] {
      AtMostOneEventEach(incoming[..|incoming| - 1], decode, isFile);
    }
  }

  /** A run of connections each producing nothing: empty reads, read errors, undecodable lines. */
  predicate AllFruitless(incoming: seq<Incoming>, decode: string -> Option<SocketMessage>, isFile: string -> bool)
  {
    forall i :: 0 <= i < |incoming| ==> Handle(incoming[i], decode, isFile).None?
  }

  /**
   * Bad connections do not stop the listener: after any number of them, the
   * next connection's event is still sent, and it is the only one.
   */
  lemma {:induction false} BadConnectionsDoNotStopListener(bad: seq<Incoming>, next: Incoming,
                                                           decode: string -> Option<SocketMessage>, isFile: string -> bool)
    requires AllFruitless(bad, decode, isFile)
    ensures Dispatched(bad + [next], decode, isFile)
         == match Handle(next, decode, isFile) case Some(e) => [e] case None => []
  {
    FruitlessSendNothing(bad, decode, isFile);
    DispatchedAppend(bad, [next], decode, isFile);
    assert [next][..0] == [];
  }

  lemma {:induction false} FruitlessSendNothing(incoming: seq<Incoming>, decode: string -> Option<SocketMessage>,
                                                isFile: string -> bool)
    requires AllFruitless(incoming, decode, isFile)
    ensures Dispatched(incoming, decode, isFile) == []
  {
    if incoming != [] {
      var init := incoming[..|incoming| - 1];
      assert AllFruitless(init, decode, isFile) by {
        forall i | 0 <= i < |init| ensures Handle(init[i], decode, isFile).None? {
          assert init[i] == incoming[i];
        }
      }
      FruitlessSendNothing(init, decode, isFile);
    }
  }

  /** An empty connection, a failed read and an undecodable line each send nothing. */
  lemma FruitlessConnections(content: string, decode: string -> Option<SocketMessage>, isFile: string -> bool)
    ensures Handle(AcceptFailed, decode, isFile) == None
    ensures Handle(BrokenStream, decode, isFile) == None
    ensures Handle(Stream([]), decode, isFile) == None
    ensures decode(ReadLine(content)) == None ==> Handle(Stream(content), decode, isFile) == None
  {
  }

  /**
   * A configuration change with a negative window id is still sent, to every
   * window (the id becomes `None`); it is not dropped.
   */
  lemma NegativeConfigIdBroadcasts(config: IpcConfig, isFile: string -> bool)
    requires config.windowId.Some? && config.windowId.value < 0
    ensures Dispatch(Config(config), isFile) == Some(Event(IpcConfigEvent(config), None))
  {
  }

  /** `spawn_ipc_socket`'s outcome: the environment after the export, and the socket path when binding worked. */
  datatype Spawned = Spawned(env: Env, socket: Option<Path>)

  /**
   * `spawn_ipc_socket` up to starting the listener thread: the path is the
   * configured one or the default one, it is exported as `ALACRITTY_SOCKET`
   * before binding (so also when binding fails), and it is returned only when
   * binding worked.
   */
  function SpawnIpcSocket(configured: Option<Path>, env: Env, platform: Platform, dir: Path, pid: Pid,
                          bind: Path -> bool): (s: Spawned)
    ensures SOCKET_ENV in s.env
    ensures configured.Some? ==> s.env[SOCKET_ENV] == configured.value
    ensures configured.None? ==> s.env[SOCKET_ENV] == Join(dir, DefaultSocketName(SocketPrefix(platform, env), pid))
    ensures forall k :: k in env && k != SOCKET_ENV ==> k in s.env && s.env[k] == env[k]
    ensures s.env.Keys == env.Keys + {SOCKET_ENV}
    ensures s.socket.Some? <==> bind(s.env[SOCKET_ENV])
    ensures s.socket.Some? ==> s.socket.value == s.env[SOCKET_ENV]
  {
    var path := SocketPath(configured, dir, platform, env, pid);
    var exported := env[SOCKET_ENV := path];
    Spawned(exported, if bind(path) then Some(path) else None)
  }

  /**
   * A sender started from the spawned instance's environment, with no path
   * of its own, reaches that instance through the exported variable when the
   * socket accepts, trying nothing else.
   */
  lemma ChildReachesSpawnedSocket(configured: Option<Path>, env: Env, platform: Platform, dir: Path, pid: Pid,
                                  bind: Path -> bool, listing: SocketDiscovery.Listing, connect: SocketDiscovery.Connector)
    requires var s := SpawnIpcSocket(configured, env, platform, dir, pid, bind);
      s.socket.Some? && connect(s.socket.value) == SocketDiscovery.Connected
    ensures var s := SpawnIpcSocket(configured, env, platform, dir, pid, bind);
      SocketDiscovery.FindSocketSpec(None, s.env, platform, dir, listing, connect)
      == SocketDiscovery.Discovery(Ok(s.socket.value), [SocketDiscovery.Connect(s.socket.value)])
  {
  }

  /**
   * When no path is configured, the socket file of the spawned instance is a
   * scan candidate for a sender of the same session, whatever the exported
   * variable says.
   */
  lemma {:induction false} SpawnedSocketIsScanCandidate(env: Env, platform: Platform, dir: Path, pid: Pid,
                                                        bind: Path -> bool, entries: seq<Option<string>>)
    requires Some(DefaultSocketName(SocketPrefix(platform, env), pid)) in entries
    ensures var s := SpawnIpcSocket(None, env, platform, dir, pid, bind);
      s.env[SOCKET_ENV] in SocketDiscovery.Candidates(dir, SocketPrefix(platform, s.env), entries)
  {
    var s := SpawnIpcSocket(None, env, platform, dir, pid, bind);
    PrefixIgnoresSocketVariable(platform, env, s.env[SOCKET_ENV]);
    assert s.env == env[SOCKET_ENV := s.env[SOCKET_ENV]];
    DefaultNameIsCandidate(platform, env, pid);
    ListedCandidate(dir, SocketPrefix(platform, env), entries, DefaultSocketName(SocketPrefix(platform, env), pid));
  }

  lemma {:induction false} ListedCandidate(dir: Path, prefix: string, entries: seq<Option<string>>, name: string)
    requires Some(name) in entries && IsSocketCandidate(prefix, name)
    ensures Join(dir, name) in SocketDiscovery.Candidates(dir, prefix, entries)
  {
    SocketDiscovery.ScanCons(dir, prefix, entries, (p: Path) => SocketDiscovery.Connected);
    if entries[0] != Some(name) {
      ListedCandidate(dir, prefix, entries[1..], name);
    }
  }

  /**
   * A message sent by `send_message` arrives whole: the bytes carry no line
   * feed, so the listener's one line is exactly the encoded message, and when
   * decoding undoes encoding the listener dispatches the message itself.
   */
  lemma {:induction false} SentMessageIsDispatched(message: SocketMessage, json: string,
                                                   decode: string -> Option<SocketMessage>, isFile: string -> bool)
    requires json != [] && '\n' !in json
    requires decode(json) == Some(message)
    ensures Handle(Stream(json), decode, isFile) == Dispatch(message, isFile)
  {
  }

  /** A window-creation request sent once is dispatched exactly once, as that request, to no window. */
  lemma CreateWindowScenario(decode: string -> Option<SocketMessage>, isFile: string -> bool)
    requires decode("{\"CreateWindow\":{\"cwd\":\"/tmp\"}}") == Some(CreateWindow(map["cwd" := "/tmp"]))
    ensures Dispatched([Stream("{\"CreateWindow\":{\"cwd\":\"/tmp\"}}")], decode, isFile)
         == [Event(CreateWindowEvent(map["cwd" := "/tmp"]), None)]
  {
    var json := "{\"CreateWindow\":{\"cwd\":\"/tmp\"}}";
    SentMessageIsDispatched(CreateWindow(map["cwd" := "/tmp"]), json, decode, isFile);
    assert [Stream(json)][..0] == [];
  }
}
