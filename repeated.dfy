/** The run accumulator the row compositor drives. Its definition is not part of this
    model; it is reconstructed from how the compositor uses it: `Set` records a cell
    folded into the open run, `Count` is the number of cells recorded since the last
    `Reset`, and the content string is whatever text it builds from those cells. */
module Accumulator {
  import opened SugarCells

  class RepeatedSugar {
    /** The cells passed to Set since the last Reset, in order. */
    var cells: seq<Sugar>
    var resetNext: bool

    constructor ()
      ensures cells == [] && !resetNext
    {
      cells := [];
      resetNext := false;
    }

    function Count(): nat
      reads this
    {
      |cells|
    }

    /** The accumulated text, given how the text is built from the recorded cells. */
    function ContentStr(contentOf: seq<Sugar> -> string): string
      reads this
    {
      contentOf(cells)
    }

    function ResetOnNext(): bool
      reads this
    {
      resetNext
    }

    method Set(s: Sugar)
      modifies this
      ensures cells == old(cells) + [s] && resetNext == old(resetNext)
    {
      cells := cells + [s];
    }

    method SetResetOnNext()
      modifies this
      ensures resetNext && cells == old(cells)
    {
      resetNext := true;
    }

    method Reset()
      modifies this
      ensures cells == [] && !resetNext
    {
      cells := [];
      resetNext := false;
    }
  }
}
