/**
 * The display-mode context: the provider keeps `mode`, sets it from the
 * window width on mount and on every resize, and offers a `toggleMode`
 * that does nothing. `useContentMode` refuses to run outside a provider.
 */
module ContentMode {
  import opened Wrappers

  datatype Mode = Short | Long

  /** Widths up to and including this one count as tablet or smaller. */
  const Breakpoint: int := 1024

  /** `width <= 1024 ? "short" : "long"`. */
  function ModeForWidth(width: int): (m: Mode)
    ensures m == Short <==> width <= Breakpoint
  {
    if width <= Breakpoint then Short else Long
  }

  /** The breakpoint itself is short; one pixel wider is long. */
  lemma BreakpointEdges()
    ensures ModeForWidth(1024) == Short && ModeForWidth(1025) == Long
  {
  }

  /** Narrowing the window never turns short into long. */
  lemma ModeMonotone(narrow: int, wide: int)
    requires narrow <= wide
    ensures ModeForWidth(wide) == Short ==> ModeForWidth(narrow) == Short
    ensures ModeForWidth(narrow) == Long ==> ModeForWidth(wide) == Long
  {
  }

  /** The mode after the resize handler has run once for each width, in order. */
  function ModeAfterResizes(start: Mode, widths: seq<int>): Mode
    decreases |widths|
  {
    if widths == [] then start else ModeAfterResizes(ModeForWidth(widths[0]), widths[1..])
  }

  /** Only the latest width counts. */
  lemma {:induction false} ModeAfterResizesIsLast(start: Mode, widths: seq<int>)
    requires widths != []
    ensures ModeAfterResizes(start, widths) == ModeForWidth(widths[|widths| - 1])
    decreases |widths|
  {
    if |widths| > 1 {
      ModeAfterResizesIsLast(ModeForWidth(widths[0]), widths[1..]);
    }
  }

  /** A repeated resize event at the same width changes nothing. */
  lemma ResizeRepeatIsIdle(start: Mode, widths: seq<int>, w: int)
    ensures ModeAfterResizes(start, widths + [w, w]) == ModeAfterResizes(start, widths + [w])
  {
    ModeAfterResizesIsLast(start, widths + [w, w]);
    ModeAfterResizesIsLast(start, widths + [w]);
  }

  /** `ContentModeProvider`'s state: the mode and whether the resize listener is attached. */
  class ModeProvider {
    var mode: Mode
    var listening: bool

    /** `useState("short")`, before the effect runs. */
    constructor ()
      ensures mode == Short && !listening
    {
      mode := Short;
      listening := false;
    }

    /** The mount effect: an immediate check of the current width, then the listener is attached. */
    method Mount(width: int)
      modifies this
      ensures mode == ModeForWidth(width) && listening
    {
      HandleResize(width);
      listening := true;
    }

    /** `handleResize`: the mode follows the breakpoint rule for the new width. */
    method HandleResize(width: int)
      modifies this
      ensures mode == ModeForWidth(width) && listening == old(listening)
    {
      mode := ModeForWidth(width);
    }

    /** The effect's cleanup: the listener is removed. */
    method Unmount()
      modifies this
      ensures !listening && mode == old(mode)
    {
      listening := false;
    }

    /** `setMode`, exposed through the context. */
    method SetMode(m: Mode)
      modifies this
      ensures mode == m && listening == old(listening)
    {
      mode := m;
    }

    /** `toggleMode` is empty. */
    method ToggleMode()
      ensures mode == old(mode) && listening == old(listening)
    {
    }
  }

  /** The error `useContentMode` throws outside a provider. */
  const OutsideProviderError := "useContentMode must be used within a ContentModeProvider"

  /** `useContentMode()`: the provider's mode, or the error when there is no provider above. */
  function UseContentMode(provider: Option<Mode>): (r: Result<Mode, string>)
    ensures r.Ok? <==> provider.Some?
    ensures r.Ok? ==> r.value == provider.value
    ensures r.Err? ==> r.error == OutsideProviderError
  {
    if provider.None? then Err(OutsideProviderError) else Ok(provider.value)
  }
}
