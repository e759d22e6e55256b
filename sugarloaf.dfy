/** The compositor object: pending rectangles and spans accumulated by rows, the layout
    and context fields it reads, and the frame it renders from them. */
module Compositor {
  import opened SugarCells
  import opened RowCompositor
  import opened Accumulator
  import opened FrameProtocol

  class Sugarloaf {
    /** Context: device scale factor and surface size. */
    var scale: real
    var width: nat
    var height: nat
    var layout: Layout
    /** Quads and spans queued for the next frame. */
    var rects: seq<Rect>
    var spans: seq<Span>
    /** The rich text last handed to the text buffer. */
    var textBuffer: seq<Span>
    /** The external calls made so far. */
    ghost var trace: seq<GpuEvent>

    constructor (scale: real, width: nat, height: nat, layout: Layout)
      ensures this.scale == scale && this.width == width && this.height == height
      ensures this.layout == layout
      ensures rects == [] && spans == [] && textBuffer == []
      ensures trace == []
    {
      this.scale := scale;
      this.width := width;
      this.height := height;
      this.layout := layout;
      rects := [];
      spans := [];
      textBuffer := [];
      trace := [];
    }

    /** Device resize: the context takes the new size and the layout its recomputed geometry. */
    method Resize(width: nat, height: nat, geometry: Geometry)
      modifies this
      ensures this.width == width && this.height == height
      ensures layout == old(layout).(geometry := geometry)
      ensures scale == old(scale)
      ensures rects == old(rects) && spans == old(spans) && textBuffer == old(textBuffer)
      ensures trace == old(trace)
    {
      this.width, this.height := width, height;
      layout := layout.(geometry := geometry);
    }

    /** Scale change: the context takes the new factor and the layout its recomputed geometry. */
    method Rescale(scale: real, geometry: Geometry)
      modifies this
      ensures this.scale == scale
      ensures layout == old(layout).(geometry := geometry)
      ensures width == old(width) && height == old(height)
      ensures rects == old(rects) && spans == old(spans) && textBuffer == old(textBuffer)
      ensures trace == old(trace)
    {
      this.scale := scale;
      layout := layout.(geometry := geometry);
    }

    method SetBackgroundColor(color: Color)
      modifies this
      ensures layout == old(layout).(backgroundColor := color)
      ensures scale == old(scale) && width == old(width) && height == old(height)
      ensures rects == old(rects) && spans == old(spans) && textBuffer == old(textBuffer)
      ensures trace == old(trace)
    {
      layout := layout.(backgroundColor := color);
    }

    method SetBackgroundImage(image: ImageProperties)
      modifies this
      ensures layout == old(layout).(backgroundImage :=
                Some(Raster(image.path, Rectangle(image.width, image.height, image.x, image.y))))
      ensures scale == old(scale) && width == old(width) && height == old(height)
      ensures rects == old(rects) && spans == old(spans) && textBuffer == old(textBuffer)
      ensures trace == old(trace)
    {
      layout := layout.(backgroundImage := Some(Raster(image.path, Rectangle(image.width, image.height, image.x, image.y))));
    }

    /** Queues caller-supplied quads after the ones already pending. */
    method PileRects(instances: seq<Rect>)
      modifies this
      ensures rects == old(rects) + instances
      ensures layout == old(layout) && scale == old(scale) && width == old(width) && height == old(height)
      ensures spans == old(spans) && textBuffer == old(textBuffer)
      ensures trace == old(trace)
    {
      rects := rects + instances;
    }

    /** Composites one row: appends the spans and quads of its runs, then the line
        terminator, and hands every pending span to the text buffer.
        `contentOf` is the text the run accumulator builds from the cells it was given. */
    method Stack(stack: SugarStack, contentOf: seq<Sugar> -> string)
      modifies this`spans, this`rects, this`textBuffer
      ensures spans == old(spans) + RowSpans(stack, contentOf) + [NewlineSpan]
      ensures rects == old(rects) + RowRects(stack, layout.geometry)
      ensures textBuffer == spans
    {
      var attr := BaseAttrs;
      var repeated := new RepeatedSugar();
      var size := |stack|;
      for i := 0 to size
        invariant repeated.cells == OpenRun(stack, i) && !repeated.resetNext
        invariant spans == old(spans) + SpansUpTo(stack, i, contentOf)
        invariant rects == old(rects) + RectsUpTo(stack, i, layout.geometry)
        modifies this`spans, this`rects, repeated
      {
        ProcessCell(stack, i, repeated, contentOf, old(spans), old(rects));
      }
      spans := spans + [Span("\n", attr)];
      textBuffer := spans;
    }

    /** One step of the row loop: cell i either folds into the next cell, and is handed
        to the accumulator, or ends a run, which is finished. With `spans0` and `rects0`
        what was pending before the row, the row's output grows from that of cells
        [0, i) to that of cells [0, i + 1). */
    method ProcessCell(stack: SugarStack, i: nat, repeated: RepeatedSugar, contentOf: seq<Sugar> -> string,
                       ghost spans0: seq<Span>, ghost rects0: seq<Rect>)
      requires i < |stack|
      requires repeated.cells == OpenRun(stack, i) && !repeated.resetNext
      requires spans == spans0 + SpansUpTo(stack, i, contentOf)
      requires rects == rects0 + RectsUpTo(stack, i, layout.geometry)
      modifies this`spans, this`rects, repeated
      ensures repeated.cells == OpenRun(stack, i + 1) && !repeated.resetNext
      ensures spans == spans0 + SpansUpTo(stack, i + 1, contentOf)
      ensures rects == rects0 + RectsUpTo(stack, i + 1, layout.geometry)
    {
      var size := |stack|;
      if i < size - 1
        && stack[i].content == stack[i + 1].content
        && stack[i].foregroundColor == stack[i + 1].foregroundColor
        && stack[i].backgroundColor == stack[i + 1].backgroundColor
        && stack[i].decoration.None?
        && stack[i + 1].decoration.None?
      {
        FoldStep(stack, i, contentOf, layout.geometry);
        repeated.Set(stack[i]);
        return;
      }

      FinishRun(stack, i, repeated, contentOf, spans0, rects0);
    }

    /** Finishes the run cell i ends: takes its quantity and text from the accumulator,
        queues what it emits, and empties the accumulator. With `spans0` and `rects0`
        what was pending before the row, the row's output grows from that of cells
        [0, i) to that of cells [0, i + 1). */
    method FinishRun(stack: SugarStack, i: nat, repeated: RepeatedSugar, contentOf: seq<Sugar> -> string,
                     ghost spans0: seq<Span>, ghost rects0: seq<Rect>)
      requires i < |stack| && !MergesWithNext(stack, i)
      requires repeated.cells == OpenRun(stack, i) && !repeated.resetNext
      requires spans == spans0 + SpansUpTo(stack, i, contentOf)
      requires rects == rects0 + RectsUpTo(stack, i, layout.geometry)
      modifies this`spans, this`rects, repeated
      ensures repeated.cells == OpenRun(stack, i + 1) && !repeated.resetNext
      ensures spans == spans0 + SpansUpTo(stack, i + 1, contentOf)
      ensures rects == rects0 + RectsUpTo(stack, i + 1, layout.geometry)
    {
      repeated.SetResetOnNext();

      var quantity := 1;
      if repeated.Count() > 0 {
        quantity := quantity + repeated.Count();
      }

      var sugarStr := if quantity > 1 then repeated.ContentStr(contentOf) else [stack[i].content];

      ghost var g := layout.geometry;
      EndStep(stack, i, contentOf);
      FinishStep(stack, i, contentOf, g);
      assert quantity == Pending(stack, i) + 1;
      var run := Run(i, quantity);
      EmitRun(stack, run, sugarStr, contentOf);
      AppendAssoc(spans0, SpansUpTo(stack, i, contentOf), RunSpans(stack, run, contentOf));
      AppendAssoc(rects0, RectsUpTo(stack, i, g), RunRects(stack, run, g));

      if repeated.ResetOnNext() {
        repeated.Reset();
      }
    }

    /** Queues what one finished run emits: its span, styled by the precedence of its
        ending cell's style flags (none when a style sets no flag), its background quad,
        and its decoration overlay. `sugarStr` is the run's text. */
    method EmitRun(stack: SugarStack, run: Run, sugarStr: string, ghost contentOf: seq<Sugar> -> string)
      requires ValidRun(stack, run) && sugarStr == RunText(stack, run, contentOf)
      modifies this`spans, this`rects
      ensures spans == old(spans) + RunSpans(stack, run, contentOf)
      ensures rects == old(rects) + RunRects(stack, run, layout.geometry)
    {
      var attr := BaseAttrs;
      var cell := stack[run.last];
      match cell.style {
        case Some(style) =>
          if style.isBoldItalic {
            spans := spans + [Span(sugarStr, attr.WithWeight(Bold).WithStyle(Italic))];
          } else if style.isBold {
            spans := spans + [Span(sugarStr, attr.WithWeight(Bold))];
          } else if style.isItalic {
            spans := spans + [Span(sugarStr, attr.WithStyle(Italic))];
          }
        case None =>
          spans := spans + [Span(sugarStr, attr)];
      }

      ghost var rectsBefore := rects;
      var g := layout.geometry;
      var background := Rect((0.0, 0.0), cell.backgroundColor, (CellWidth * run.quantity as real, g.sugarheight));
      rects := rects + [background];

      match cell.decoration {
        case Some(decoration) =>
          var lineHeight := g.lineHeight;
          var decPosY := DecorationTop + decoration.relativePosition.1 * lineHeight;
          var overlay := Rect((DecorationX, decPosY), decoration.color, (DecorationWidth, g.sugarheight * decoration.size.1));
          OverlayQuad(decoration, g, decPosY, overlay);
          rects := rects + [overlay];
          assert rects == rectsBefore + [background, overlay];
        case None =>
      }
    }

    /** Renders one frame. Text is shaped and prepared first; then the surface is asked
        for a frame. With a frame, the stages run in order and the pending quads and spans
        are drained; out of memory aborts; any other error drops the frame and keeps them. */
    method Render(surface: Acquisition) returns (outcome: FrameOutcome)
      modifies this
      ensures outcome == OutcomeOf(surface)
      ensures trace == old(trace) + TextPreparation(textBuffer, width, height, scale) + [AcquireSurface]
                       + (if surface.Frame? then FrameEvents(layout, old(rects), width, height) else [])
      ensures surface.Frame? ==> rects == [] && spans == []
      ensures surface.Failed? ==> rects == old(rects) && spans == old(spans)
      ensures layout == old(layout) && scale == old(scale) && width == old(width) && height == old(height)
      ensures textBuffer == old(textBuffer)
    {
      trace := trace + TextPreparation(textBuffer, width, height, scale);
      trace := trace + [AcquireSurface];
      ghost var acquired := trace;
      match surface {
        case Frame =>
          trace := trace + [ClearPass(layout.backgroundColor)];
          match layout.backgroundImage {
            case Some(image) =>
              trace := trace + [LayerPrepare(image), LayerRender];
            case None =>
          }
          trace := trace + [RectRender(rects, width, height)];
          rects := [];
          spans := [];
          trace := trace + [Submit, Present, AtlasTrim];
          assert trace == acquired + FrameEvents(layout, old(rects), width, height);
          outcome := Presented;
        case Failed(error) =>
          if error == OutOfMemory {
            outcome := Panicked;
          } else {
            outcome := Dropped;
          }
      }
    }

    /** Clears the surface to the background colour, with the same surface-error policy
        as Render; pending quads and spans are left alone. */
    method Clear(surface: Acquisition) returns (outcome: FrameOutcome)
      modifies this
      ensures outcome == OutcomeOf(surface)
      ensures trace == old(trace) + [AcquireSurface]
                       + (if surface.Frame? then ClearEvents(layout.backgroundColor) else [])
      ensures rects == old(rects) && spans == old(spans) && textBuffer == old(textBuffer)
      ensures layout == old(layout) && scale == old(scale) && width == old(width) && height == old(height)
    {
      trace := trace + [AcquireSurface];
      match surface {
        case Frame =>
          trace := trace + [ClearPass(layout.backgroundColor), StagingFinish, Submit, Present, StagingRecall];
          outcome := Presented;
        case Failed(error) =>
          if error == OutOfMemory {
            outcome := Panicked;
          } else {
            outcome := Dropped;
          }
      }
    }
  }
}
