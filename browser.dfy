/**
 * The browser the two Selenium harvesters drive, reduced to what they observe:
 * the outcome of each attempt at clicking "Show More" and the hrefs of the
 * property anchors each time they are read. Both are scripts fixed in advance;
 * an arbitrary script models an arbitrary browser.
 */
module Browser {
  import opened Options
  import opened Scripts

  /** What one attempt at clicking "Show More" meets. */
  datatype ClickAttempt =
    | NoButton  // the button never became clickable; the finder returned None
    | Raised    // a driver call raised before the click took effect
    | Clicked   // the click went through

  class Page {
    /** Outcomes of the coming click attempts; once used up, the button is gone. */
    var attempts: seq<ClickAttempt>
    /** Results of the coming reads of the anchors' hrefs (None: the read raised);
        once used up, the page shows no anchors. */
    var anchors: seq<Option<seq<string>>>
    /** Attempts and reads made so far, and clicks that took effect. */
    ghost var attemptsMade: nat
    ghost var readsMade: nat
    ghost var position: nat

    constructor (attempts: seq<ClickAttempt>, anchors: seq<Option<seq<string>>>)
      ensures this.attempts == attempts && this.anchors == anchors
      ensures attemptsMade == 0 && readsMade == 0 && position == 0
    {
      this.attempts := attempts;
      this.anchors := anchors;
      attemptsMade, readsMade, position := 0, 0, 0;
    }

    /** One attempt at finding and clicking the "Show More" button. */
    method TryClick() returns (a: ClickAttempt)
      modifies this
      ensures a == Next(old(attempts), NoButton) && attempts == Drop(old(attempts))
      ensures attemptsMade == old(attemptsMade) + 1
      ensures position == old(position) + (if a == Clicked then 1 else 0)
      ensures anchors == old(anchors) && readsMade == old(readsMade)
    {
      a := Next(attempts, NoButton);
      attempts := Drop(attempts);
      attemptsMade := attemptsMade + 1;
      if a == Clicked {
        position := position + 1;
      }
    }

    /** The hrefs of the `a[href*='/property-for-sale/']` anchors currently shown. */
    method ReadHrefs() returns (r: Option<seq<string>>)
      modifies this
      ensures r == Next(old(anchors), Some([])) && anchors == Drop(old(anchors))
      ensures readsMade == old(readsMade) + 1
      ensures attempts == old(attempts) && attemptsMade == old(attemptsMade) && position == old(position)
    {
      r := Next(anchors, Some([]));
      anchors := Drop(anchors);
      readsMade := readsMade + 1;
    }
  }
}
