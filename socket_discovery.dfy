/**
 * The sending side: `find_socket` resolves the socket of a running instance
 * through the chain explicit path, then `ALACRITTY_SOCKET`, then a scan of the
 * socket directory that deletes orphaned sockets; `send_message` writes one
 * encoded message to what it found. Connecting, listing the directory,
 * encoding and writing are oracles; connects, removals, writes and flushes
 * are returned as a trace of effects in the order they happen.
 */
module SocketDiscovery {
  import opened Base
  import opened SocketNaming
  import opened Protocol

  datatype ErrorKind = NotFound | PermissionDenied | ConnectionRefused | InvalidData | OtherKind

  /** Where an error was raised, standing for the message `find_socket` attaches. */
  datatype ErrorContext = InvalidSocketPath(path: Path) | NoSocketFound | Os | Serialization

  datatype IoError = IoError(kind: ErrorKind, context: ErrorContext)

  /** What `UnixStream::connect` does for one path. */
  datatype ConnectOutcome = Connected | Failed(kind: ErrorKind)

  type Connector = Path -> ConnectOutcome

  /**
   * `fs::read_dir` of the socket directory: an error, or the entries in
   * listing order, `None` standing for an entry that could not be read or
   * whose file name is not UTF-8 (both are skipped).
   */
  type Listing = Result<seq<Option<string>>, ErrorKind>

  datatype Effect = Connect(path: Path) | Remove(path: Path) | Write(path: Path, bytes: string) | Flush(path: Path)

  /** A resolved socket (named by its path) or the error, with what was done on the way. */
  datatype Discovery = Discovery(socket: Result<Path, IoError>, effects: seq<Effect>)

  /** `d` preceded by the effects `before`. */
  function After(before: seq<Effect>, d: Discovery): Discovery
  {
    Discovery(d.socket, before + d.effects)
  }

  /** The path the scan tries for a directory entry: none for an unreadable entry or a name the filter rejects. */
  function CandidateOf(dir: Path, prefix: string, entry: Option<string>): (r: Option<Path>)
    ensures r.Some? <==> entry.Some? && IsSocketCandidate(prefix, entry.value)
    ensures r.Some? ==> r.value == Join(dir, entry.value)
  {
    match entry
    case None => None
    case Some(name) => if IsSocketCandidate(prefix, name) then Some(Join(dir, name)) else None
  }

  /** One step of the directory scan: what happens to one entry's candidate, followed by the scan of the rest. */
  function ScanStep(candidate: Option<Path>, connect: Connector, rest: Discovery): Discovery
  {
    match candidate
    case None => rest
    case Some(path) =>
      match connect(path)
      case Connected => Discovery(Ok(path), [Connect(path)])
      case Failed(ConnectionRefused) => After([Connect(path), Remove(path)], rest)
      case Failed(_) => After([Connect(path)], rest)
  }

  /** The directory scan of `find_socket` over `entries`, as a specification. */
  function Scan(dir: Path, prefix: string, entries: seq<Option<string>>, connect: Connector): Discovery
  {
    if entries == [] then Discovery(Err(IoError(NotFound, NoSocketFound)), [])
    else ScanStep(CandidateOf(dir, prefix, entries[0]), connect, Scan(dir, prefix, entries[1..], connect))
  }

  /** `find_socket` as a specification: the explicit path alone, else the variable, else the scan. */
  function FindSocketSpec(explicit: Option<Path>, env: Env, platform: Platform, dir: Path,
                          listing: Listing, connect: Connector): Discovery
  {
    match explicit
    case Some(path) =>
      var socket := match connect(path)
        case Connected => Ok(path)
        case Failed(kind) => Err(IoError(kind, InvalidSocketPath(path)));
      Discovery(socket, [Connect(path)])
    case None =>
      var tried := if SOCKET_ENV in env then [Connect(env[SOCKET_ENV])] else [];
      if SOCKET_ENV in env && connect(env[SOCKET_ENV]).Connected? then
        Discovery(Ok(env[SOCKET_ENV]), tried)
      else
        match listing
        case Err(kind) => Discovery(Err(IoError(kind, Os)), tried)
        case Ok(entries) => After(tried, Scan(dir, SocketPrefix(platform, env), entries, connect))
  }

  /** Scanning from entry `i` is the step on entry `i` followed by the scan from `i + 1`. */
  lemma {:induction false} ScanFrom(dir: Path, prefix: string, entries: seq<Option<string>>, i: nat, connect: Connector)
    requires i < |entries|
    ensures Scan(dir, prefix, entries[i..], connect)
         == ScanStep(CandidateOf(dir, prefix, entries[i]), connect, Scan(dir, prefix, entries[i + 1..], connect))
  {
    assert entries[i..][1..] == entries[i + 1..];
  }

  lemma AfterAfter(a: seq<Effect>, b: seq<Effect>, d: Discovery)
    ensures After(a, After(b, d)) == After(a + b, d)
  {
    assert a + (b + d.effects) == (a + b) + d.effects;
  }

  /**
   * The directory scan of `find_socket`: candidates are tried in listing
   * order, a live one ends the scan, a refused one is removed.
   */
  method ScanDirectory(dir: Path, platform: Platform, env: Env, entries: seq<Option<string>>, connect: Connector)
    returns (socket: Result<Path, IoError>, effects: seq<Effect>)
    ensures Discovery(socket, effects) == Scan(dir, SocketPrefix(platform, env), entries, connect)
  {
    effects := [];
    var i := 0;
    while i < |entries|
      invariant 0 <= i <= |entries|
      invariant Scan(dir, SocketPrefix(platform, env), entries, connect)
             == After(effects, Scan(dir, SocketPrefix(platform, env), entries[i..], connect))
    {
      ScanFrom(dir, SocketPrefix(platform, env), entries, i, connect);
      if entries[i].Some? {
        var name := entries[i].value;
        // The prefix is recomputed for every entry.
        var prefix := SocketPrefix(platform, env);
        if IsSocketCandidate(prefix, name) {
          var path := Join(dir, name);
          ghost var rest := Scan(dir, prefix, entries[i + 1..], connect);
          match connect(path) {
            case Connected =>
              effects := effects + [Connect(path)];
              socket := Ok(path);
              return;
            case Failed(ConnectionRefused) =>
              AfterAfter(effects, [Connect(path), Remove(path)], rest);
              effects := effects + [Connect(path), Remove(path)];
            case Failed(_) =>
              AfterAfter(effects, [Connect(path)], rest);
              effects := effects + [Connect(path)];
          }
        }
      }
      i := i + 1;
    }
    socket := Err(IoError(NotFound, NoSocketFound));
  }

  /** `find_socket`. */
  method FindSocket(explicit: Option<Path>, env: Env, platform: Platform, dir: Path,
                    listing: Listing, connect: Connector)
    returns (socket: Result<Path, IoError>, effects: seq<Effect>)
    ensures Discovery(socket, effects) == FindSocketSpec(explicit, env, platform, dir, listing, connect)
  {
    effects := [];
    if explicit.Some? {
      var path := explicit.value;
      effects := [Connect(path)];
      match connect(path) {
        case Connected => socket := Ok(path);
        case Failed(kind) => socket := Err(IoError(kind, InvalidSocketPath(path)));
      }
      return;
    }

    if SOCKET_ENV in env {
      var path := env[SOCKET_ENV];
      effects := [Connect(path)];
      if connect(path).Connected? {
        socket := Ok(path);
        return;
      }
    }

    match listing {
      case Err(kind) =>
        socket := Err(IoError(kind, Os));
      case Ok(entries) =>
        var scanned;
        socket, scanned := ScanDirectory(dir, platform, env, entries, connect);
        effects := effects + scanned;
    }
  }

  /** `send_message`: find the socket, encode, write the bytes with no line terminator, flush and ignore how the flush went. */
  method SendMessage(explicit: Option<Path>, message: SocketMessage, env: Env, platform: Platform, dir: Path,
                     listing: Listing, connect: Connector,
                     encode: SocketMessage -> Option<string>, write: (Path, string) -> Option<ErrorKind>)
    returns (result: Result<(), IoError>, effects: seq<Effect>)
    ensures var found := FindSocketSpec(explicit, env, platform, dir, listing, connect);
      match found.socket
      case Err(e) => result == Err(e) && effects == found.effects
      case Ok(path) =>
        match encode(message)
        case None => result == Err(IoError(InvalidData, Serialization)) && effects == found.effects
        case Some(json) =>
          match write(path, json)
          case Some(kind) => result == Err(IoError(kind, Os)) && effects == found.effects + [Write(path, json)]
          case None => result == Ok(()) && effects == found.effects + [Write(path, json), Flush(path)]
  {
    var socket;
    socket, effects := FindSocket(explicit, env, platform, dir, listing, connect);
    if socket.Err? {
      return Err(socket.error), effects;
    }
    var path := socket.value;
    var encoded := encode(message);
    if encoded.None? {
      return Err(IoError(InvalidData, Serialization)), effects;
    }
    var json := encoded.value;
    effects := effects + [Write(path, json)];
    var written := write(path, json);
    if written.Some? {
      return Err(IoError(written.value, Os)), effects;
    }
    effects := effects + [Flush(path)];
    result := Ok(());
  }

  /** An explicit path is the only thing tried; its failure is reported with the same kind. */
  lemma ExplicitPathOnly(path: Path, env: Env, platform: Platform, dir: Path, listing: Listing, connect: Connector)
    ensures var d := FindSocketSpec(Some(path), env, platform, dir, listing, connect);
      && d.effects == [Connect(path)]
      && (d.socket.Ok? <==> connect(path) == Connected)
      && (d.socket.Ok? ==> d.socket.value == path)
      && (d.socket.Err? ==> d.socket.error == IoError(connect(path).kind, InvalidSocketPath(path)))
  {
  }

  /** A live socket named by `ALACRITTY_SOCKET` is used at once, and nothing is removed. */
  lemma VariableShortCircuits(env: Env, platform: Platform, dir: Path, listing: Listing, connect: Connector)
    requires SOCKET_ENV in env && connect(env[SOCKET_ENV]) == Connected
    ensures FindSocketSpec(None, env, platform, dir, listing, connect)
         == Discovery(Ok(env[SOCKET_ENV]), [Connect(env[SOCKET_ENV])])
  {
  }

  /** A dead socket named by `ALACRITTY_SOCKET` is tried once and its error swallowed; the scan decides. */
  lemma VariableFailureSwallowed(env: Env, platform: Platform, dir: Path, entries: seq<Option<string>>, connect: Connector)
    requires SOCKET_ENV in env && connect(env[SOCKET_ENV]).Failed?
    ensures var d := FindSocketSpec(None, env, platform, dir, Ok(entries), connect);
      var s := Scan(dir, SocketPrefix(platform, env), entries, connect);
      d.socket == s.socket && d.effects == [Connect(env[SOCKET_ENV])] + s.effects
  {
  }

  /** The paths the scan may touch, in listing order: readable entries passing the filter, joined to the directory. */
  function Candidates(dir: Path, prefix: string, entries: seq<Option<string>>): (cands: seq<Path>)
    ensures |cands| <= |entries|
  {
    if entries == [] then []
    else
      (match CandidateOf(dir, prefix, entries[0]) case Some(path) => [path] case None => [])
      + Candidates(dir, prefix, entries[1..])
  }

  /** Every candidate comes from a listed name that passes the filter. */
  lemma {:induction false} CandidateOrigin(dir: Path, prefix: string, entries: seq<Option<string>>, path: Path)
    requires path in Candidates(dir, prefix, entries)
    ensures exists name :: Some(name) in entries && IsSocketCandidate(prefix, name) && path == Join(dir, name)
  {
    if CandidateOf(dir, prefix, entries[0]) == Some(path) {
      assert Some(entries[0].value) == entries[0];
    } else {
      CandidateOrigin(dir, prefix, entries[1..], path);
      var name :| Some(name) in entries[1..] && IsSocketCandidate(prefix, name) && path == Join(dir, name);
      assert Some(name) in entries;
    }
  }

  /** The index of the first candidate that accepts a connection, or `|cands|` when none does. */
  function FirstLive(cands: seq<Path>, connect: Connector): (k: nat)
    ensures k <= |cands|
    ensures k < |cands| ==> connect(cands[k]) == Connected
  {
    if cands == [] then 0
    else if connect(cands[0]) == Connected then 0
    else 1 + FirstLive(cands[1..], connect)
  }

  /** No candidate before the first live one accepts a connection. */
  lemma {:induction false} BeforeFirstLiveAllFail(cands: seq<Path>, connect: Connector, j: nat)
    requires j < FirstLive(cands, connect)
    ensures connect(cands[j]).Failed?
  {
    if j > 0 {
      BeforeFirstLiveAllFail(cands[1..], connect, j - 1);
    }
  }

  /** The paths among `paths` that refused the connection, in order. */
  function Refusing(paths: seq<Path>, connect: Connector): (r: seq<Path>)
    ensures |r| <= |paths|
    ensures forall p :: p in r <==> p in paths && connect(p) == Failed(ConnectionRefused)
  {
    if paths == [] then []
    else (if connect(paths[0]) == Failed(ConnectionRefused) then [paths[0]] else []) + Refusing(paths[1..], connect)
  }

  /** The paths connected to, in order. */
  function ConnectsIn(effects: seq<Effect>): seq<Path>
  {
    if effects == [] then []
    else (if effects[0].Connect? then [effects[0].path] else []) + ConnectsIn(effects[1..])
  }

  /** The paths removed, in order. */
  function RemovalsIn(effects: seq<Effect>): seq<Path>
  {
    if effects == [] then []
    else (if effects[0].Remove? then [effects[0].path] else []) + RemovalsIn(effects[1..])
  }

  lemma {:induction false} ConnectsAppend(a: seq<Effect>, b: seq<Effect>)
    ensures ConnectsIn(a + b) == ConnectsIn(a) + ConnectsIn(b)
  {
    if a == [] {
      assert a + b == b;
    } else {
      var ab := a + b;
      assert ab[0] == a[0] && ab[1..] == a[1..] + b;
      ConnectsAppend(a[1..], b);
      calc {
        ConnectsIn(ab);
        (if a[0].Connect? then [a[0].path] else []) + ConnectsIn(a[1..] + b);
        (if a[0].Connect? then [a[0].path] else []) + (ConnectsIn(a[1..]) + ConnectsIn(b));
      }
    }
  }

  lemma {:induction false} RemovalsAppend(a: seq<Effect>, b: seq<Effect>)
    ensures RemovalsIn(a + b) == RemovalsIn(a) + RemovalsIn(b)
  {
    if a == [] {
      assert a + b == b;
    } else {
      var ab := a + b;
      assert ab[0] == a[0] && ab[1..] == a[1..] + b;
      RemovalsAppend(a[1..], b);
      calc {
        RemovalsIn(ab);
        (if a[0].Remove? then [a[0].path] else []) + RemovalsIn(a[1..] + b);
        (if a[0].Remove? then [a[0].path] else []) + (RemovalsIn(a[1..]) + RemovalsIn(b));
      }
    }
  }

  /** The candidates the scan connects to: up to and including the first live one, or all of them. */
  function Tried(cands: seq<Path>, connect: Connector): seq<Path>
  {
    var k := FirstLive(cands, connect);
    if k < |cands| then cands[..k + 1] else cands
  }

  lemma TriedCons(path: Path, rest: seq<Path>, connect: Connector)
    ensures connect(path) == Connected ==> Tried([path] + rest, connect) == [path]
    ensures connect(path).Failed? ==> Tried([path] + rest, connect) == [path] + Tried(rest, connect)
  {
    var cands := [path] + rest;
    assert cands[0] == path && cands[1..] == rest;
    if connect(path).Failed? {
      var k := FirstLive(rest, connect);
      assert FirstLive(cands, connect) == 1 + k;
      if k < |rest| {
        assert cands[..k + 2] == [path] + rest[..k + 1];
      }
    } else {
      assert cands[..1] == [path];
    }
  }

  lemma RefusingCons(path: Path, rest: seq<Path>, connect: Connector)
    ensures Refusing([path] + rest, connect)
         == (if connect(path) == Failed(ConnectionRefused) then [path] else []) + Refusing(rest, connect)
  {
    assert ([path] + rest)[0] == path && ([path] + rest)[1..] == rest;
  }

  /** The candidates an entry contributes: its path when it passes the filter, none otherwise. */
  function AsList(candidate: Option<Path>): seq<Path>
  {
    match candidate
    case Some(path) => [path]
    case None => []
  }

  lemma {:induction false} ScanCons(dir: Path, prefix: string, entries: seq<Option<string>>, connect: Connector)
    requires entries != []
    ensures Scan(dir, prefix, entries, connect)
         == ScanStep(CandidateOf(dir, prefix, entries[0]), connect, Scan(dir, prefix, entries[1..], connect))
    ensures Candidates(dir, prefix, entries)
         == AsList(CandidateOf(dir, prefix, entries[0])) + Candidates(dir, prefix, entries[1..])
  {
  }

  /** `d` returns the first of `cands` that accepts a connection, or NotFound when none does. */
  predicate ReturnsFirstLive(d: Discovery, cands: seq<Path>, connect: Connector)
  {
    var k := FirstLive(cands, connect);
    && (k < |cands| ==> d.socket == Ok(cands[k]))
    && (k == |cands| ==> d.socket == Err(IoError(NotFound, NoSocketFound)))
  }

  /** `d` connects to the tried candidates in order and removes exactly the refusing ones among them. */
  predicate TouchesTried(d: Discovery, cands: seq<Path>, connect: Connector)
  {
    var tried := Tried(cands, connect);
    ConnectsIn(d.effects) == tried && RemovalsIn(d.effects) == Refusing(tried, connect)
  }

  lemma StepReturnsFirstLive(candidate: Option<Path>, connect: Connector, rest: Discovery, restCands: seq<Path>)
    requires ReturnsFirstLive(rest, restCands, connect)
    ensures ReturnsFirstLive(ScanStep(candidate, connect, rest), AsList(candidate) + restCands, connect)
  {
    var cands := AsList(candidate) + restCands;
    match candidate {
      case None =>
        assert cands == restCands;
      case Some(path) =>
        assert cands[0] == path && cands[1..] == restCands;
        if connect(path).Failed? {
          assert FirstLive(cands, connect) == 1 + FirstLive(restCands, connect);
        }
    }
  }

  lemma StepTouchesTried(candidate: Option<Path>, connect: Connector, rest: Discovery, restCands: seq<Path>)
    requires TouchesTried(rest, restCands, connect)
    ensures TouchesTried(ScanStep(candidate, connect, rest), AsList(candidate) + restCands, connect)
  {
    match candidate {
      case None =>
        assert AsList(candidate) + restCands == restCands;
      case Some(path) =>
        TriedCons(path, restCands, connect);
        match connect(path) {
          case Connected =>
            assert ConnectsIn([Connect(path)]) == [path];
            assert RemovalsIn([Connect(path)]) == [];
            RefusingCons(path, [], connect);
          case Failed(kind) =>
            var here := if kind == ConnectionRefused then [Connect(path), Remove(path)] else [Connect(path)];
            assert ScanStep(candidate, connect, rest) == After(here, rest);
            ConnectsAppend(here, rest.effects);
            RemovalsAppend(here, rest.effects);
            assert ConnectsIn(here) == [path];
            assert RemovalsIn(here) == if kind == ConnectionRefused then [path] else [];
            RefusingCons(path, Tried(restCands, connect), connect);
        }
    }
  }

  /** The scan returns the first candidate, in listing order, that accepts a connection, and NotFound when none does. */
  lemma {:induction false} ScanFindsFirstLive(dir: Path, prefix: string, entries: seq<Option<string>>, connect: Connector)
    ensures ReturnsFirstLive(Scan(dir, prefix, entries, connect), Candidates(dir, prefix, entries), connect)
  {
    if entries != [] {
      ScanCons(dir, prefix, entries, connect);
      ScanFindsFirstLive(dir, prefix, entries[1..], connect);
      StepReturnsFirstLive(CandidateOf(dir, prefix, entries[0]), connect,
                           Scan(dir, prefix, entries[1..], connect), Candidates(dir, prefix, entries[1..]));
    }
  }

  /**
   * The scan connects to the candidates in listing order up to and including
   * the first live one, and removes exactly those of them that refused.
   */
  lemma {:induction false} ScanEffects(dir: Path, prefix: string, entries: seq<Option<string>>, connect: Connector)
    ensures TouchesTried(Scan(dir, prefix, entries, connect), Candidates(dir, prefix, entries), connect)
  {
    if entries != [] {
      ScanCons(dir, prefix, entries, connect);
      ScanEffects(dir, prefix, entries[1..], connect);
      StepTouchesTried(CandidateOf(dir, prefix, entries[0]), connect,
                       Scan(dir, prefix, entries[1..], connect), Candidates(dir, prefix, entries[1..]));
    }
  }

  /** The scan connects to and removes nothing but paths of listed names that pass the filter. */
  lemma {:induction false} ScanTouchesOnlyCandidates(dir: Path, prefix: string, entries: seq<Option<string>>,
                                                     connect: Connector, i: nat)
    requires i < |Scan(dir, prefix, entries, connect).effects|
    ensures var e := Scan(dir, prefix, entries, connect).effects[i];
      && (e.Connect? || e.Remove?)
      && e.path in Candidates(dir, prefix, entries)
  {
    var s := Scan(dir, prefix, entries, connect);
    var rest := Scan(dir, prefix, entries[1..], connect);
    var restCands := Candidates(dir, prefix, entries[1..]);
    match CandidateOf(dir, prefix, entries[0]) {
      case None =>
        assert Candidates(dir, prefix, entries) == [] + restCands;
        ScanTouchesOnlyCandidates(dir, prefix, entries[1..], connect, i);
      case Some(path) =>
        assert Candidates(dir, prefix, entries) == [path] + restCands;
        match connect(path) {
          case Connected =>
          case Failed(kind) =>
            var here := if kind == ConnectionRefused then [Connect(path), Remove(path)] else [Connect(path)];
            assert s.effects == here + rest.effects;
            if i >= |here| {
              ScanTouchesOnlyCandidates(dir, prefix, entries[1..], connect, i - |here|);
            }
        }
    }
  }

  predicate Distinct<T(==)>(s: seq<T>)
  {
    forall i, j :: 0 <= i < j < |s| ==> s[i] != s[j]
  }

  /** A directory listing: no name twice, and no name holding a path of its own. */
  predicate WellFormedListing(entries: seq<Option<string>>)
  {
    && (forall i, j :: 0 <= i < j < |entries| && entries[i].Some? ==> entries[i] != entries[j])
    && (forall i :: 0 <= i < |entries| && entries[i].Some? ==> !StartsWith(entries[i].value, "/"))
  }

  lemma {:induction false} CandidatesDistinct(dir: Path, prefix: string, entries: seq<Option<string>>)
    requires WellFormedListing(entries)
    ensures Distinct(Candidates(dir, prefix, entries))
  {
    if entries != [] {
      var rest := entries[1..];
      assert WellFormedListing(rest) by {
        forall i, j | 0 <= i < j < |rest| && rest[i].Some? ensures rest[i] != rest[j] {
          assert rest[i] == entries[i + 1] && rest[j] == entries[j + 1];
        }
        forall i | 0 <= i < |rest| && rest[i].Some? ensures !StartsWith(rest[i].value, "/") {
          assert rest[i] == entries[i + 1];
        }
      }
      CandidatesDistinct(dir, prefix, rest);
      ScanCons(dir, prefix, entries, (p: Path) => Connected);
      var restCands := Candidates(dir, prefix, rest);
      match CandidateOf(dir, prefix, entries[0]) {
        case None =>
          assert Candidates(dir, prefix, entries) == restCands;
        case Some(path) =>
          if path in restCands {
            CandidateOrigin(dir, prefix, rest, path);
            var name :| Some(name) in rest && IsSocketCandidate(prefix, name) && path == Join(dir, name);
            var j :| 0 <= j < |rest| && rest[j] == Some(name);
            assert entries[j + 1] == Some(name);
            JoinInjective(dir, entries[0].value, name);
            assert false;
          }
          var cands := Candidates(dir, prefix, entries);
          assert cands == [path] + restCands;
          forall i, j | 0 <= i < j < |cands| ensures cands[i] != cands[j] {
            if i == 0 {
              assert cands[j] == restCands[j - 1];
            } else {
              assert cands[i] == restCands[i - 1] && cands[j] == restCands[j - 1];
            }
          }
      }
    }
  }

  lemma {:induction false} RefusingDistinct(paths: seq<Path>, connect: Connector)
    requires Distinct(paths)
    ensures Distinct(Refusing(paths, connect))
  {
    if paths != [] {
      var rest := paths[1..];
      assert Distinct(rest) by {
        forall i, j | 0 <= i < j < |rest| ensures rest[i] != rest[j] {
          assert rest[i] == paths[i + 1] && rest[j] == paths[j + 1];
        }
      }
      RefusingDistinct(rest, connect);
      var r := Refusing(paths, connect);
      var restR := Refusing(rest, connect);
      if connect(paths[0]) == Failed(ConnectionRefused) {
        assert paths[0] !in rest;
        assert r == [paths[0]] + restR;
        forall i, j | 0 <= i < j < |r| ensures r[i] != r[j] {
          if i == 0 {
            assert r[j] == restR[j - 1];
            assert restR[j - 1] in rest;
          } else {
            assert r[i] == restR[i - 1] && r[j] == restR[j - 1];
          }
        }
      } else {
        assert r == restR;
      }
    }
  }

  /**
   * In one scan of a directory listing, no candidate is connected to twice,
   * so a refusing socket is never retried, and every orphaned socket is
   * removed once, never twice.
   */
  lemma {:induction false} ScanTriesAndRemovesEachOnce(dir: Path, prefix: string, entries: seq<Option<string>>,
                                                       connect: Connector)
    requires WellFormedListing(entries)
    ensures Distinct(ConnectsIn(Scan(dir, prefix, entries, connect).effects))
    ensures Distinct(RemovalsIn(Scan(dir, prefix, entries, connect).effects))
  {
    var cands := Candidates(dir, prefix, entries);
    CandidatesDistinct(dir, prefix, entries);
    ScanEffects(dir, prefix, entries, connect);
    var tried := Tried(cands, connect);
    assert Distinct(tried) by {
      var k := FirstLive(cands, connect);
      if k < |cands| {
        forall i, j | 0 <= i < j < |tried| ensures tried[i] != tried[j] {
          assert tried[i] == cands[i] && tried[j] == cands[j];
        }
      }
    }
    RefusingDistinct(tried, connect);
  }
}
