/**
 * The takeover overlay: the "image:<absolute path>" payload parser and the
 * two-field state machine (`active`, `renderer`) that keyboard and window
 * events drive. Whether a path names a regular file and whether an image
 * renderer can be built for it are oracles supplied by the caller.
 */
module Takeover {
  import opened Base

  const IMAGE_SCHEME: string := "image:"

  /** Requests a takeover can serve. */
  datatype TakeoverEvent = Image(path: string)

  /** `Path::is_absolute` on Unix: the path starts at the root. */
  predicate IsAbsolute(path: string)
  {
    |path| > 0 && path[0] == '/'
  }

  /**
   * `TakeoverEvent::try_from`: strips one "image:" and accepts the rest when
   * it is absolute and names a regular file; anything else is rejected.
   */
  function TryFrom(value: string, isFile: string -> bool): (r: Option<TakeoverEvent>)
    ensures r.Some? <==> StartsWith(value, IMAGE_SCHEME)
                         && IsAbsolute(value[|IMAGE_SCHEME|..]) && isFile(value[|IMAGE_SCHEME|..])
    ensures r.Some? ==> IMAGE_SCHEME + r.value.path == value
  {
    if StartsWith(value, IMAGE_SCHEME) then
      var path := value[|IMAGE_SCHEME|..];
      if !IsAbsolute(path) || !isFile(path) then None else Some(Image(path))
    else
      None
  }

  /** Writing an image request and parsing it back gives the same path, when that path is an absolute file. */
  lemma {:induction false} ImageRequestRoundTrip(path: string, isFile: string -> bool)
    requires IsAbsolute(path) && isFile(path)
    ensures TryFrom(IMAGE_SCHEME + path, isFile) == Some(Image(path))
  {
    var value := IMAGE_SCHEME + path;
    assert value[..|IMAGE_SCHEME|] == IMAGE_SCHEME;
    assert value[|IMAGE_SCHEME|..] == path;
  }

  /** Only one scheme is stripped: "image:image:/x" asks for the relative path "image:/x" and is rejected. */
  lemma {:induction false} SchemeStrippedOnce(path: string, isFile: string -> bool)
    ensures TryFrom(IMAGE_SCHEME + IMAGE_SCHEME + path, isFile) == None
  {
    var value := IMAGE_SCHEME + IMAGE_SCHEME + path;
    assert value[..|IMAGE_SCHEME|] == IMAGE_SCHEME;
    assert value[|IMAGE_SCHEME|..][0] == 'i';
  }

  /** What draws the overlay; the image renderer is built from the requested path. */
  datatype Renderer = ImageRenderer(image: string)

  datatype VirtualKeyCode = Escape | LBracket | OtherKey(code: nat)

  datatype KeyboardInput = KeyboardInput(virtualKeycode: Option<VirtualKeyCode>)

  datatype ModifiersState = ModifiersState(shift: bool, ctrl: bool, alt: bool, logo: bool)

  datatype WindowEvent =
    | Resized(width: nat, height: nat)
    | KeyboardInputEvent(input: KeyboardInput, isSynthetic: bool)
    | OtherWindowEvent

  /** Takeover functionality: whether it is showing, and what renders it. */
  class Takeover {
    var active: bool
    var renderer: Option<Renderer>

    /** What `render` checks before it unwraps the renderer. */
    ghost predicate Valid()
      reads this
    {
      active ==> renderer.Some?
    }

    /** `Takeover::default`. */
    constructor ()
      ensures !active && renderer == None
      ensures Valid()
    {
      active := false;
      renderer := None;
    }

    /**
     * `update`: ignored while active; otherwise the old renderer is dropped
     * and, when an image renderer can be created (`canCreate`), it becomes
     * the renderer and the takeover turns active.
     */
    method Update(event: TakeoverEvent, canCreate: string -> bool)
      requires Valid()
      modifies this
      ensures Valid()
      ensures old(active) ==> active && renderer == old(renderer)
      ensures !old(active) && canCreate(event.path) ==> active && renderer == Some(ImageRenderer(event.path))
      ensures !old(active) && !canCreate(event.path) ==> !active && renderer == None
    {
      if active {
        return;
      }
      renderer := None;
      match event {
        case Image(path) =>
          if canCreate(path) {
            renderer := Some(ImageRenderer(path));
            active := true;
          }
      }
    }

    /** `render`: the renderer drawn is the one held; callers only render while active. */
    method Render() returns (drawn: Renderer)
      requires Valid() && active
      ensures renderer == Some(drawn)
    {
      drawn := renderer.value;
    }

    /** `exit`: deactivates and keeps the renderer for a later request to replace. */
    method Exit()
      requires Valid()
      modifies this`active
      ensures !active
      ensures Valid()
    {
      active := false;
    }

    /** `key_input`: Escape exits; '[' exits with Ctrl or the logo key held; other keys do nothing. */
    method KeyInput(input: KeyboardInput, mods: ModifiersState)
      requires Valid()
      modifies this`active
      ensures Valid()
      ensures input.virtualKeycode == Some(Escape) ==> !active
      ensures input.virtualKeycode == Some(LBracket) ==> active == (old(active) && !mods.ctrl && !mods.logo)
      ensures input.virtualKeycode != Some(Escape) && input.virtualKeycode != Some(LBracket) ==> active == old(active)
    {
      match input.virtualKeycode {
        case Some(Escape) => Exit();
        case Some(LBracket) =>
          if mods.ctrl || mods.logo {
            Exit();
          }
        case _ =>
      }
    }

    /**
     * `handle_window_event`, which callers reach only while active: a resize
     * goes to the held renderer and leaves the state alone, keyboard input
     * that is not synthetic goes to `key_input`, anything else is ignored.
     */
    method HandleWindowEvent(event: WindowEvent, mods: ModifiersState)
      requires Valid() && active
      modifies this`active
      ensures Valid()
      ensures renderer == old(renderer)
      ensures event.KeyboardInputEvent? && !event.isSynthetic ==>
        (event.input.virtualKeycode == Some(Escape) ==> !active)
        && (event.input.virtualKeycode == Some(LBracket) ==> active == (!mods.ctrl && !mods.logo))
        && (event.input.virtualKeycode != Some(Escape) && event.input.virtualKeycode != Some(LBracket) ==> active)
      ensures !event.KeyboardInputEvent? || event.isSynthetic ==> active
    {
      match event {
        case Resized(_, _) =>
          var _ := renderer.value;
        case KeyboardInputEvent(input, isSynthetic) =>
          if !isSynthetic {
            KeyInput(input, mods);
          }
        case OtherWindowEvent =>
      }
    }
  }

  /** The takeover's lifecycle as a client sees it: a request activates it, Escape ends it, the renderer is kept until replaced. */
  method LifecycleExample(path: string)
  {
    var t := new Takeover();
    t.Update(Image(path), (p: string) => true);
    assert t.active && t.renderer == Some(ImageRenderer(path));
    t.Update(Image("/other"), (p: string) => true);
    assert t.renderer == Some(ImageRenderer(path));
    t.HandleWindowEvent(KeyboardInputEvent(KeyboardInput(Some(Escape)), true), ModifiersState(false, false, false, false));
    assert t.active;
    t.HandleWindowEvent(KeyboardInputEvent(KeyboardInput(Some(Escape)), false), ModifiersState(false, false, false, false));
    assert !t.active && t.renderer == Some(ImageRenderer(path));
    t.Update(Image(path), (p: string) => false);
    assert !t.active && t.renderer == None;
  }
}
