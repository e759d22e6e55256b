/** The row compositor's meaning, as functions: which adjacent cells are folded
    together, the runs a row splits into, and the spans and rectangles each run
    emits. Compositor.Sugarloaf.Stack is proved to append exactly these. */
module RowCompositor {
  import opened SugarCells

  /** Width of one cell in the rectangle batch. */
  const CellWidth: real := 10.0
  /** Fixed horizontal position and width of every decoration overlay. */
  const DecorationX: real := 10.0
  const DecorationWidth: real := 10.0
  /** Vertical origin a decoration's relative position is added to. */
  const DecorationTop: real := 10.0

  const FontFamily: string := "Fira Code"
  /** The attributes every span starts from: the fixed family, normal weight, upright. */
  const BaseAttrs: Attrs := Attrs(FontFamily, Normal, Upright)
  /** The line terminator appended after every row. */
  const NewlineSpan: Span := Span("\n", BaseAttrs)

  /** Two adjacent cells look alike and neither carries a decoration. Style is not compared. */
  predicate Mergeable(a: Sugar, b: Sugar)
  {
    && a.content == b.content
    && a.foregroundColor == b.foregroundColor
    && a.backgroundColor == b.backgroundColor
    && a.decoration.None?
    && b.decoration.None?
  }

  /** Cell i is folded into the run of the cell after it. */
  predicate MergesWithNext(stack: SugarStack, i: nat)
    requires i < |stack|
  {
    i < |stack| - 1 && Mergeable(stack[i], stack[i + 1])
  }

  /** How many cells have been folded into the open run once cells [0, n) are processed. */
  function Pending(stack: SugarStack, n: nat): (p: nat)
    requires n <= |stack|
    ensures p <= n
  {
    if n == 0 then 0
    else if MergesWithNext(stack, n - 1) then Pending(stack, n - 1) + 1
    else 0
  }

  /** The cells handed to the run accumulator and not yet flushed once cells [0, n)
      are processed: the folded cells of the open run. */
  function OpenRun(stack: SugarStack, n: nat): seq<Sugar>
    requires n <= |stack|
  {
    if n == 0 then []
    else if MergesWithNext(stack, n - 1) then OpenRun(stack, n - 1) + [stack[n - 1]]
    else []
  }

  /** A finished run: the index of its ending cell and how many cells it covers. */
  datatype Run = Run(last: nat, quantity: nat)

  /** Index of the first cell of a run. */
  function First(r: Run): int { r.last + 1 - r.quantity }

  predicate ValidRun(stack: SugarStack, r: Run)
  {
    r.last < |stack| && 1 <= r.quantity <= r.last + 1
  }

  predicate ValidRuns(stack: SugarStack, rs: seq<Run>)
  {
    forall k :: 0 <= k < |rs| ==> ValidRun(stack, rs[k])
  }

  /** The runs finished while processing cells [0, n), in left-to-right order. */
  function RunsUpTo(stack: SugarStack, n: nat): (rs: seq<Run>)
    requires n <= |stack|
    ensures ValidRuns(stack, rs)
    ensures forall k :: 0 <= k < |rs| ==> rs[k].last < n
  {
    if n == 0 then []
    else if MergesWithNext(stack, n - 1) then RunsUpTo(stack, n - 1)
    else RunsUpTo(stack, n - 1) + [Run(n - 1, Pending(stack, n - 1) + 1)]
  }

  /** The runs of a whole row. */
  function Runs(stack: SugarStack): seq<Run>
  {
    RunsUpTo(stack, |stack|)
  }

  /** The attributes a cell's style selects, by precedence bold-italic, bold, italic;
      a style with no flag set selects none, and then no span is queued. */
  function StyleAttrs(style: Option<SugarStyle>): Option<Attrs>
  {
    match style
    case None => Some(BaseAttrs)
    case Some(s) =>
      if s.isBoldItalic then Some(BaseAttrs.WithWeight(Bold).WithStyle(Italic))
      else if s.isBold then Some(BaseAttrs.WithWeight(Bold))
      else if s.isItalic then Some(BaseAttrs.WithStyle(Italic))
      else None
  }

  /** The precedence, flag by flag: no style gives the plain attributes; a span is
      selected exactly when some flag is set; it is bold exactly when bold-italic or bold
      is set, and italic exactly when bold-italic is set or italic is set without bold. */
  lemma StyleAttrsPrecedence(style: Option<SugarStyle>)
    ensures style.None? ==> StyleAttrs(style) == Some(BaseAttrs)
    ensures StyleAttrs(style).Some? <==> (style.None? || style.value.isBoldItalic || style.value.isBold || style.value.isItalic)
    ensures StyleAttrs(style).Some? ==> StyleAttrs(style).value.family == FontFamily
    ensures StyleAttrs(style).Some? ==>
              (StyleAttrs(style).value.weight == Bold <==> style.Some? && (style.value.isBoldItalic || style.value.isBold))
    ensures StyleAttrs(style).Some? ==>
              (StyleAttrs(style).value.style == Italic <==>
                 style.Some? && (style.value.isBoldItalic || (!style.value.isBold && style.value.isItalic)))
  {
  }

  /** The text of a run: what the accumulator gathered from the folded cells when more
      than one cell is covered, the ending cell's own character otherwise. `contentOf`
      stands for the accumulator's content string, built from the cells passed to it. */
  function RunText(stack: SugarStack, r: Run, contentOf: seq<Sugar> -> string): string
    requires ValidRun(stack, r)
  {
    if r.quantity > 1 then contentOf(stack[r.last + 1 - r.quantity .. r.last])
    else [stack[r.last].content]
  }

  /** The spans a run queues: one, styled from its ending cell, or none. */
  function RunSpans(stack: SugarStack, r: Run, contentOf: seq<Sugar> -> string): seq<Span>
    requires ValidRun(stack, r)
  {
    match StyleAttrs(stack[r.last].style)
    case None => []
    case Some(a) => [Span(RunText(stack, r, contentOf), a)]
  }

  /** The background quad of a run: at the origin, the ending cell's background colour,
      one cell width per covered cell. */
  function BackgroundRect(stack: SugarStack, r: Run, g: Geometry): Rect
    requires ValidRun(stack, r)
  {
    Rect((0.0, 0.0), stack[r.last].backgroundColor, (CellWidth * r.quantity as real, g.sugarheight))
  }

  /** The overlay quad of a decoration, at its fixed horizontal position. */
  function DecorationRect(d: SugarDecoration, g: Geometry): Rect
  {
    Rect((DecorationX, DecorationTop + d.relativePosition.1 * g.lineHeight),
         d.color,
         (DecorationWidth, g.sugarheight * d.size.1))
  }

  /** A quad built field by field at the overlay position is the decoration's quad. */
  lemma OverlayQuad(d: SugarDecoration, g: Geometry, y: real, q: Rect)
    requires y == DecorationTop + d.relativePosition.1 * g.lineHeight
    requires q == Rect((DecorationX, y), d.color, (DecorationWidth, g.sugarheight * d.size.1))
    ensures q == DecorationRect(d, g)
  {
    var r := DecorationRect(d, g);
    assert q.position.1 == r.position.1 && q.size.1 == r.size.1;
  }

  /** The quads a run queues: its background, then its ending cell's decoration if any. */
  function RunRects(stack: SugarStack, r: Run, g: Geometry): seq<Rect>
    requires ValidRun(stack, r)
  {
    [BackgroundRect(stack, r, g)] +
    match stack[r.last].decoration
    case None => []
    case Some(d) => [DecorationRect(d, g)]
  }

  function SpansOf(stack: SugarStack, rs: seq<Run>, contentOf: seq<Sugar> -> string): seq<Span>
    requires ValidRuns(stack, rs)
  {
    if rs == [] then []
    else SpansOf(stack, rs[..|rs| - 1], contentOf) + RunSpans(stack, rs[|rs| - 1], contentOf)
  }

  function RectsOf(stack: SugarStack, rs: seq<Run>, g: Geometry): seq<Rect>
    requires ValidRuns(stack, rs)
  {
    if rs == [] then []
    else RectsOf(stack, rs[..|rs| - 1], g) + RunRects(stack, rs[|rs| - 1], g)
  }

  /** The open run is the last Pending(stack, n) cells before n. */
  lemma {:induction false} OpenRunIsSuffix(stack: SugarStack, n: nat)
    requires n <= |stack|
    ensures OpenRun(stack, n) == stack[n - Pending(stack, n) .. n]
  {
    if n > 0 && MergesWithNext(stack, n - 1) {
      OpenRunIsSuffix(stack, n - 1);
      var p := Pending(stack, n - 1);
      assert stack[n - 1 - p .. n] == stack[n - 1 - p .. n - 1] + [stack[n - 1]];
    }
  }

  /** Processing a cell that folds into the next one finishes no run and hands the cell
      to the accumulator. */
  lemma FoldStep(stack: SugarStack, i: nat, contentOf: seq<Sugar> -> string, g: Geometry)
    requires i < |stack| && MergesWithNext(stack, i)
    ensures OpenRun(stack, i + 1) == OpenRun(stack, i) + [stack[i]]
    ensures SpansUpTo(stack, i + 1, contentOf) == SpansUpTo(stack, i, contentOf)
    ensures RectsUpTo(stack, i + 1, g) == RectsUpTo(stack, i, g)
  {
  }

  /** Processing a cell that does not fold finishes the run it ends: one more than the
      folded cells, with the accumulated text when it covers more than one cell. */
  lemma EndStep(stack: SugarStack, i: nat, contentOf: seq<Sugar> -> string)
    requires i < |stack| && !MergesWithNext(stack, i)
    ensures OpenRun(stack, i + 1) == []
    ensures |OpenRun(stack, i)| == Pending(stack, i)
    ensures RunsUpTo(stack, i + 1) == RunsUpTo(stack, i) + [Run(i, Pending(stack, i) + 1)]
    ensures RunText(stack, Run(i, Pending(stack, i) + 1), contentOf)
            == if Pending(stack, i) > 0 then contentOf(OpenRun(stack, i)) else [stack[i].content]
  {
    OpenRunIsSuffix(stack, i);
  }

  /** A run appended to a sequence of runs appends its spans and quads. */
  lemma AppendRun(stack: SugarStack, rs: seq<Run>, r: Run, contentOf: seq<Sugar> -> string, g: Geometry)
    requires ValidRuns(stack, rs) && ValidRun(stack, r)
    ensures ValidRuns(stack, rs + [r])
    ensures SpansOf(stack, rs + [r], contentOf) == SpansOf(stack, rs, contentOf) + RunSpans(stack, r, contentOf)
    ensures RectsOf(stack, rs + [r], g) == RectsOf(stack, rs, g) + RunRects(stack, r, g)
  {
    assert (rs + [r])[..|rs|] == rs;
  }

  /** The spans queued while processing cells [0, n), cell by cell. */
  function SpansUpTo(stack: SugarStack, n: nat, contentOf: seq<Sugar> -> string): seq<Span>
    requires n <= |stack|
  {
    if n == 0 then []
    else if MergesWithNext(stack, n - 1) then SpansUpTo(stack, n - 1, contentOf)
    else SpansUpTo(stack, n - 1, contentOf) + RunSpans(stack, Run(n - 1, Pending(stack, n - 1) + 1), contentOf)
  }

  /** The quads queued while processing cells [0, n), cell by cell. */
  function RectsUpTo(stack: SugarStack, n: nat, g: Geometry): seq<Rect>
    requires n <= |stack|
  {
    if n == 0 then []
    else if MergesWithNext(stack, n - 1) then RectsUpTo(stack, n - 1, g)
    else RectsUpTo(stack, n - 1, g) + RunRects(stack, Run(n - 1, Pending(stack, n - 1) + 1), g)
  }

  /** Processing a cell that does not fold queues what the run it ends emits. */
  lemma FinishStep(stack: SugarStack, i: nat, contentOf: seq<Sugar> -> string, g: Geometry)
    requires i < |stack| && !MergesWithNext(stack, i)
    ensures ValidRun(stack, Run(i, Pending(stack, i) + 1))
    ensures SpansUpTo(stack, i + 1, contentOf) == SpansUpTo(stack, i, contentOf) + RunSpans(stack, Run(i, Pending(stack, i) + 1), contentOf)
    ensures RectsUpTo(stack, i + 1, g) == RectsUpTo(stack, i, g) + RunRects(stack, Run(i, Pending(stack, i) + 1), g)
  {
  }

  /** What is queued cell by cell is what the finished runs emit, run by run. */
  lemma {:induction false} UpToIsPerRun(stack: SugarStack, n: nat, contentOf: seq<Sugar> -> string, g: Geometry)
    requires n <= |stack|
    ensures SpansUpTo(stack, n, contentOf) == SpansOf(stack, RunsUpTo(stack, n), contentOf)
    ensures RectsUpTo(stack, n, g) == RectsOf(stack, RunsUpTo(stack, n), g)
  {
    if n > 0 {
      UpToIsPerRun(stack, n - 1, contentOf, g);
      if !MergesWithNext(stack, n - 1) {
        EndStep(stack, n - 1, contentOf);
        FinishStep(stack, n - 1, contentOf, g);
        AppendRun(stack, RunsUpTo(stack, n - 1), Run(n - 1, Pending(stack, n - 1) + 1), contentOf, g);
      }
    }
  }

  /** The spans a row queues, before its line terminator. */
  function RowSpans(stack: SugarStack, contentOf: seq<Sugar> -> string): seq<Span>
  {
    SpansUpTo(stack, |stack|, contentOf)
  }

  /** The quads a row queues. */
  function RowRects(stack: SugarStack, g: Geometry): seq<Rect>
  {
    RectsUpTo(stack, |stack|, g)
  }

  /** A row queues, run by run and left to right, what each of its runs emits. */
  lemma RowOutputPerRun(stack: SugarStack, contentOf: seq<Sugar> -> string, g: Geometry)
    ensures RowSpans(stack, contentOf) == SpansOf(stack, Runs(stack), contentOf)
    ensures RowRects(stack, g) == RectsOf(stack, Runs(stack), g)
  {
    UpToIsPerRun(stack, |stack|, contentOf, g);
  }

  lemma AppendAssoc<T>(a: seq<T>, b: seq<T>, c: seq<T>)
    ensures a + b + c == a + (b + c)
  {
  }
}
