/** The `collections.deque` of raw lines that the reader fills from the file
    and that block parsing consumes from the left, in place. */
module Deque {
  import opened Wrappers

  class LineDeque {
    /** The lines not yet consumed, front first. */
    var items: seq<string>

    constructor (lines: seq<string>)
      ensures items == lines
    {
      items := lines;
    }

    /** `not vdeq`: nothing left to consume. */
    predicate IsEmpty()
      reads this
      ensures IsEmpty() <==> |items| == 0
    {
      items == []
    }

    /** `vdeq[0]`: the next line, without consuming it. */
    function Front(): (r: string)
      reads this
      requires items != []
      ensures r in items && [r] + items[1..] == items
    {
      items[0]
    }

    /** `vdeq.popleft()`: removes and returns the front line; on an empty
        deque Python raises IndexError, modelled as None with nothing changed. */
    method PopLeft() returns (r: Option<string>)
      modifies this
      ensures old(items) == [] ==> r == None && items == []
      ensures old(items) != [] ==> r == Some(old(items)[0]) && items == old(items)[1..]
    {
      if items == [] {
        r := None;
      } else {
        r := Some(items[0]);
        items := items[1..];
      }
    }
  }
}
