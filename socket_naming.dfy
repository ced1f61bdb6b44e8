/**
 * Naming of the IPC socket file: the per-session file prefix, the default
 * `<prefix>-<pid>.sock` name, how a directory and a name are joined into a
 * path, and the file-name filter that discovery applies to directory entries.
 * The process environment is an explicit map.
 */
module SocketNaming {
  import opened Base

  type Path = string

  /** The process environment: variable name to value. */
  type Env = map<string, string>

  /** `process::id()` is a `u32`. */
  type Pid = n: nat | n < 0x1_0000_0000

  /** The two `cfg` variants of `socket_prefix`. */
  datatype Platform = MacOs | OtherUnix

  const SOCKET_ENV: string := "ALACRITTY_SOCKET"
  const WAYLAND_DISPLAY: string := "WAYLAND_DISPLAY"
  const X_DISPLAY: string := "DISPLAY"
  const SESSION_PREFIX: string := "Alacritty-"
  const MACOS_PREFIX: string := "Alacritty"
  const SOCKET_SUFFIX: string := ".sock"

  /** `s.replace(from, to)` for one-character patterns. */
  function ReplaceChar(s: string, from: char, to: char): (r: string)
    ensures |r| == |s|
    ensures forall i :: 0 <= i < |s| ==> r[i] == (if s[i] == from then to else s[i])
  {
    if s == [] then [] else [if s[0] == from then to else s[0]] + ReplaceChar(s[1..], from, to)
  }

  /** The display server of the session: `WAYLAND_DISPLAY`, else `DISPLAY`, else empty. */
  function Display(env: Env): string
  {
    if WAYLAND_DISPLAY in env then env[WAYLAND_DISPLAY]
    else if X_DISPLAY in env then env[X_DISPLAY]
    else ""
  }

  /**
   * `socket_prefix`. Outside macOS the prefix is "Alacritty-" followed by the
   * display name with every '/' turned into '-'; on macOS it is the constant
   * "Alacritty". Either way it holds no '/', so it stays inside one directory.
   */
  function SocketPrefix(platform: Platform, env: Env): (p: string)
    ensures platform == MacOs ==> p == MACOS_PREFIX
    ensures platform == OtherUnix ==>
      && StartsWith(p, SESSION_PREFIX)
      && |p| == |SESSION_PREFIX| + |Display(env)|
      && (forall i :: 0 <= i < |Display(env)| ==>
            p[|SESSION_PREFIX| + i] == (if Display(env)[i] == '/' then '-' else Display(env)[i]))
    ensures StartsWith(p, MACOS_PREFIX)
    ensures '/' !in p
  {
    match platform
    case MacOs => MACOS_PREFIX
    case OtherUnix =>
      var display := Display(env);
      var sanitized := ReplaceChar(display, '/', '-');
      assert '/' !in sanitized by {
        forall i | 0 <= i < |sanitized| ensures sanitized[i] != '/' { }
      }
      SESSION_PREFIX + sanitized
  }

  /** The decimal digit character for `d`. */
  function Digit(d: nat): (c: char)
    requires d < 10
    ensures '0' <= c <= '9' && c as int - '0' as int == d
  {
    ('0' as int + d) as char
  }

  /** `format!("{}", n)` for an unsigned integer: its decimal digits, no leading zero. */
  function DecimalString(n: nat): (s: string)
    ensures s != []
    ensures forall i :: 0 <= i < |s| ==> '0' <= s[i] <= '9'
    ensures |s| > 1 ==> s[0] != '0'
  {
    if n < 10 then [Digit(n)] else DecimalString(n / 10) + [Digit(n % 10)]
  }

  /** The number a string of decimal digits denotes. */
  function DecimalValue(s: string): nat
    requires forall i :: 0 <= i < |s| ==> '0' <= s[i] <= '9'
  {
    if s == [] then 0 else DecimalValue(s[..|s| - 1]) * 10 + (s[|s| - 1] as int - '0' as int)
  }

  /** Printing a process id in decimal loses nothing. */
  lemma {:induction false} DecimalRoundTrip(n: nat)
    ensures DecimalValue(DecimalString(n)) == n
  {
    if n >= 10 {
      var s := DecimalString(n);
      assert s[..|s| - 1] == DecimalString(n / 10);
      DecimalRoundTrip(n / 10);
    }
  }

  /** The file name `spawn_ipc_socket` gives its socket when none is configured. */
  function DefaultSocketName(prefix: string, pid: Pid): (name: string)
    ensures '/' !in prefix ==> '/' !in name
    ensures |name| == |prefix| + 1 + |DecimalString(pid)| + |SOCKET_SUFFIX|
  {
    prefix + "-" + DecimalString(pid) + SOCKET_SUFFIX
  }

  /**
   * `PathBuf::push(name)`: an absolute name replaces the path, an empty path
   * becomes the name, otherwise a '/' is inserted unless the path ends in one.
   */
  function Join(dir: Path, name: string): (p: Path)
  {
    if StartsWith(name, "/") || dir == [] then name
    else if dir[|dir| - 1] == '/' then dir + name
    else dir + "/" + name
  }

  /** Relative names joined to one directory give different paths. */
  lemma JoinInjective(dir: Path, a: string, b: string)
    requires !StartsWith(a, "/") && !StartsWith(b, "/")
    requires Join(dir, a) == Join(dir, b)
    ensures a == b
  {
    var p := Join(dir, a);
    var lo := |p| - |a|;
    assert |a| == |b|;
    assert p[lo..] == a && p[lo..] == b;
  }

  /** The socket path `spawn_ipc_socket` binds: the configured one verbatim, else the default name in `dir`. */
  function SocketPath(configured: Option<Path>, dir: Path, platform: Platform, env: Env, pid: Pid): Path
  {
    match configured
    case Some(path) => path
    case None => Join(dir, DefaultSocketName(SocketPrefix(platform, env), pid))
  }

  /** The filter `find_socket` applies to a directory entry's file name. */
  predicate IsSocketCandidate(prefix: string, name: string)
  {
    StartsWith(name, prefix) && EndsWith(name, SOCKET_SUFFIX)
  }

  /** `WAYLAND_DISPLAY` wins over `DISPLAY`; the display is empty when neither is set. */
  lemma DisplayPrecedence(env: Env)
    ensures WAYLAND_DISPLAY in env ==> Display(env) == env[WAYLAND_DISPLAY]
    ensures WAYLAND_DISPLAY !in env && X_DISPLAY in env ==> Display(env) == env[X_DISPLAY]
    ensures WAYLAND_DISPLAY !in env && X_DISPLAY !in env ==> Display(env) == ""
  {
  }

  /** The prefix depends on the display variables alone: exporting the socket path does not change it. */
  lemma {:induction false} PrefixIgnoresSocketVariable(platform: Platform, env: Env, path: Path)
    ensures SocketPrefix(platform, env[SOCKET_ENV := path]) == SocketPrefix(platform, env)
  {
    assert Display(env[SOCKET_ENV := path]) == Display(env);
  }

  /** A socket created under the default name passes the filter of a scan run in the same session. */
  lemma {:induction false} DefaultNameIsCandidate(platform: Platform, env: Env, pid: Pid)
    ensures IsSocketCandidate(SocketPrefix(platform, env), DefaultSocketName(SocketPrefix(platform, env), pid))
  {
    var prefix := SocketPrefix(platform, env);
    var name := DefaultSocketName(prefix, pid);
    assert name == prefix + ("-" + DecimalString(pid) + SOCKET_SUFFIX);
    assert name[..|prefix|] == prefix;
    assert name[|name| - |SOCKET_SUFFIX|..] == SOCKET_SUFFIX;
  }

  /** Two processes of one session never share a default socket name. */
  lemma {:induction false} DistinctPidsDistinctNames(prefix: string, a: Pid, b: Pid)
    requires a != b
    ensures DefaultSocketName(prefix, a) != DefaultSocketName(prefix, b)
  {
    if DefaultSocketName(prefix, a) == DefaultSocketName(prefix, b) {
      var na, nb := DefaultSocketName(prefix, a), DefaultSocketName(prefix, b);
      var lo := |prefix| + 1;
      assert na[lo..|na| - |SOCKET_SUFFIX|] == DecimalString(a);
      assert nb[lo..|nb| - |SOCKET_SUFFIX|] == DecimalString(b);
      DecimalRoundTrip(a);
      DecimalRoundTrip(b);
    }
  }

  /**
   * The filter is a plain prefix match, so it does not isolate sessions: the
   * scan of display ":1" accepts the socket of display ":10".
   */
  lemma PrefixFilterCrossesSessions()
    ensures var one, ten := map[X_DISPLAY := ":1"], map[X_DISPLAY := ":10"];
      && SocketPrefix(OtherUnix, one) != SocketPrefix(OtherUnix, ten)
      && IsSocketCandidate(SocketPrefix(OtherUnix, one), DefaultSocketName(SocketPrefix(OtherUnix, ten), 42))
  {
    var one, ten := map[X_DISPLAY := ":1"], map[X_DISPLAY := ":10"];
    assert Display(one) == ":1" && Display(ten) == ":10";
    assert ReplaceChar(":1", '/', '-') == ":1";
    assert ReplaceChar(":10", '/', '-') == ":10";
    assert DecimalString(42) == "42";
    assert SocketPrefix(OtherUnix, one) == "Alacritty-:1";
    assert SocketPrefix(OtherUnix, ten) == "Alacritty-:10";
    var name := DefaultSocketName(SocketPrefix(OtherUnix, ten), 42);
    assert name == "Alacritty-:10" + "-" + "42" + ".sock";
    assert name[..|"Alacritty-:1"|] == "Alacritty-:1";
    assert name[|name| - |SOCKET_SUFFIX|..] == SOCKET_SUFFIX;
  }

  /** With no display set, the scan accepts the default socket of every other session. */
  lemma {:induction false} EmptyDisplayMatchesEverySession(env: Env, other: Env, pid: Pid)
    requires WAYLAND_DISPLAY !in env && X_DISPLAY !in env
    ensures IsSocketCandidate(SocketPrefix(OtherUnix, env), DefaultSocketName(SocketPrefix(OtherUnix, other), pid))
  {
    var mine, theirs := SocketPrefix(OtherUnix, env), SocketPrefix(OtherUnix, other);
    assert mine == SESSION_PREFIX;
    DefaultNameIsCandidate(OtherUnix, other, pid);
    var name := DefaultSocketName(theirs, pid);
    assert name[..|theirs|][..|mine|] == name[..|mine|];
  }
}
