/**
  The about section: a carousel over the major works with previous/next
  buttons and one dot per work, the "Development Journey" accordion, and a
  marquee that scrolls the tools list twice over so it can loop seamlessly.
 */
module About {
  import opened Cycle

  /** The section's hook state over a fixed number of major works. */
  class AboutView {
    const workCount: nat
    var currentWorkIndex: nat
    var isDevelopHistoryOpen: bool

    /** The first work is shown and the accordion is closed. */
    constructor(workCount: nat)
      ensures this.workCount == workCount
      ensures currentWorkIndex == 0 && !isDevelopHistoryOpen
    {
      this.workCount := workCount;
      currentWorkIndex := 0;
      isDevelopHistoryOpen := false;
    }

    /** The index names one of the works. */
    predicate InRange()
      reads this
    {
      currentWorkIndex < workCount
    }

    /** `nextWork`: one step forward, wrapping from the last work to the first. */
    method ClickNext()
      requires workCount > 0
      modifies this
      ensures currentWorkIndex == Next(old(currentWorkIndex), workCount)
      ensures InRange()
      ensures old(InRange()) ==>
        currentWorkIndex == if old(currentWorkIndex) == workCount - 1 then 0 else old(currentWorkIndex) + 1
      ensures isDevelopHistoryOpen == old(isDevelopHistoryOpen)
    {
      currentWorkIndex := Next(currentWorkIndex, workCount);
    }

    /** `prevWork`: one step back, wrapping from the first work to the last. */
    method ClickPrev()
      requires workCount > 0
      modifies this
      ensures currentWorkIndex == Prev(old(currentWorkIndex), workCount)
      ensures InRange()
      ensures old(InRange()) ==>
        currentWorkIndex == if old(currentWorkIndex) == 0 then workCount - 1 else old(currentWorkIndex) - 1
      ensures isDevelopHistoryOpen == old(isDevelopHistoryOpen)
    {
      currentWorkIndex := Prev(currentWorkIndex, workCount);
    }

    /** Dot `k` (one is rendered per work) jumps to work `k`. */
    method ClickDot(k: nat)
      requires k < workCount
      modifies this
      ensures currentWorkIndex == k && InRange()
      ensures isDevelopHistoryOpen == old(isDevelopHistoryOpen)
    {
      currentWorkIndex := k;
    }

    /** The accordion header flips the open flag. */
    method ToggleHistory()
      modifies this
      ensures isDevelopHistoryOpen == !old(isDevelopHistoryOpen)
      ensures currentWorkIndex == old(currentWorkIndex)
    {
      isDevelopHistoryOpen := !isDevelopHistoryOpen;
    }

    /** Which dot is highlighted. */
    function ActiveDots(): (d: seq<bool>)
      reads this
      ensures |d| == workCount
    {
      Dots(currentWorkIndex, workCount)
    }
  }

  /** Two clicks on the accordion leave it as it was. */
  method ToggleHistoryTwice(view: AboutView)
    modifies view
    ensures view.isDevelopHistoryOpen == old(view.isDevelopHistoryOpen)
    ensures view.currentWorkIndex == old(view.currentWorkIndex)
  {
    view.ToggleHistory();
    view.ToggleHistory();
  }

  /** `[...data.tools, ...data.tools]`: every tool at position `k` and again at `k + |tools|`. */
  function Doubled<T>(tools: seq<T>): (r: seq<T>)
    ensures |r| == 2 * |tools|
    ensures forall k :: 0 <= k < |tools| ==> r[k] == tools[k] && r[k + |tools|] == tools[k]
    ensures r[..|tools|] == r[|tools|..] == tools
  {
    tools + tools
  }

  /** Each tool appears in the marquee exactly twice as often as in the tools list. */
  lemma DoubledMultiplicity<T>(tools: seq<T>, t: T)
    ensures multiset(Doubled(tools))[t] == 2 * multiset(tools)[t]
  {
  }
}
