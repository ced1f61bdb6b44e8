/**
 * The messages one Alacritty process sends another over the IPC socket, and
 * the events the listener hands to the window event loop. The option payloads
 * are carried without interpretation.
 */
module Protocol {
  import opened Base
  import Takeover

  const U64_LIMIT: nat := 0x1_0000_0000_0000_0000

  /** `winit::window::WindowId`, built from a `u64`. */
  type WindowId = n: nat | n < U64_LIMIT

  /** Options of a new window, forwarded untouched. */
  type WindowOptions = map<string, string>

  /** A configuration change aimed at one window, or at every window when `windowId` is `None`. */
  datatype IpcConfig = IpcConfig(options: seq<string>, windowId: Option<int>, reset: bool)

  /** A takeover request for one window. */
  datatype TakeoverMessage = TakeoverMessage(windowId: int, msg: string)

  /** `SocketMessage`: what travels over the socket. */
  datatype SocketMessage =
    | CreateWindow(windowOptions: WindowOptions)
    | Config(ipcConfig: IpcConfig)
    | TakeoverRequest(takeover: TakeoverMessage)

  datatype EventType =
    | CreateWindowEvent(windowOptions: WindowOptions)
    | IpcConfigEvent(ipcConfig: IpcConfig)
    | TakeoverEvent(event: Takeover.TakeoverEvent)

  /** An event for the event loop, aimed at one window or none. */
  datatype Event = Event(payload: EventType, windowId: Option<WindowId>)

  /** `u64::try_from(id).ok()`. */
  function TryIntoU64(id: int): (r: Option<WindowId>)
    ensures r.Some? <==> 0 <= id < U64_LIMIT
    ensures r.Some? ==> r.value == id
  {
    if 0 <= id < U64_LIMIT then Some(id) else None
  }
}
