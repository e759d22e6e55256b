/** The frame protocol: the GPU and text-service calls a frame makes, as events, and the
    outcomes of acquiring the surface. */
module FrameProtocol {
  import opened SugarCells

  /** Why the surface could not hand out a frame. */
  datatype SurfaceError = Timeout | Outdated | Lost | OutOfMemory

  /** The result of asking the surface for its next texture. */
  datatype Acquisition = Frame | Failed(error: SurfaceError)

  /** How a render or clear call ended. Panicked stands for the process aborting. */
  datatype FrameOutcome = Presented | Dropped | Panicked

  /** The external calls a frame makes, in the order they are made. */
  datatype GpuEvent =
    | ShapeText(buffer: seq<Span>)
    | PrepareText(buffer: seq<Span>, width: nat, height: nat, scale: real)
    | AcquireSurface
    | ClearPass(color: Color)
    | LayerPrepare(image: Image)
    | LayerRender
    | RectRender(rects: seq<Rect>, width: nat, height: nat)
    | StagingFinish
    | Submit
    | Present
    | StagingRecall
    | AtlasTrim

  /** The outcome the surface-error policy gives: out of memory aborts, any other error
      drops the frame. */
  function OutcomeOf(surface: Acquisition): (o: FrameOutcome)
    ensures o == Presented <==> surface.Frame?
    ensures o == Panicked <==> surface == Failed(OutOfMemory)
    ensures o == Dropped <==> surface.Failed? && surface.error != OutOfMemory
  {
    match surface
    case Frame => Presented
    case Failed(e) => if e == OutOfMemory then Panicked else Dropped
  }

  /** The text shaping and glyph preparation done before the surface is asked for a frame. */
  function TextPreparation(buffer: seq<Span>, width: nat, height: nat, scale: real): seq<GpuEvent>
  {
    [ShapeText(buffer), PrepareText(buffer, width, height, scale)]
  }

  /** The stages of a frame once the surface handed one out: clear to the background
      colour, draw the background image layer if there is one, draw the rectangle batch,
      submit, present, trim the glyph atlas. */
  function FrameEvents(layout: Layout, rects: seq<Rect>, width: nat, height: nat): seq<GpuEvent>
  {
    [ClearPass(layout.backgroundColor)]
    + (match layout.backgroundImage
       case Some(image) => [LayerPrepare(image), LayerRender]
       case None => [])
    + [RectRender(rects, width, height), Submit, Present, AtlasTrim]
  }

  /** The frame's stages come in the order the compositor issues them: clear first, the
      image layer only when a background image is set, then the quad batch, submit,
      present and atlas trim. */
  lemma FrameStageOrder(layout: Layout, rects: seq<Rect>, width: nat, height: nat)
    ensures var ev := FrameEvents(layout, rects, width, height);
            && |ev| == (if layout.backgroundImage.Some? then 7 else 5)
            && ev[0] == ClearPass(layout.backgroundColor)
            && ev[|ev| - 4] == RectRender(rects, width, height)
            && ev[|ev| - 3..] == [Submit, Present, AtlasTrim]
            && (layout.backgroundImage.Some? ==> ev[1..3] == [LayerPrepare(layout.backgroundImage.value), LayerRender])
            && (LayerRender in ev <==> layout.backgroundImage.Some?)
  {
  }

  /** The stages of a clear once the surface handed out a frame. */
  function ClearEvents(color: Color): (ev: seq<GpuEvent>)
    ensures |ev| == 5 && ev[0] == ClearPass(color)
    ensures ev[|ev| - 3..] == [Submit, Present, StagingRecall]
    ensures forall e :: e in ev ==> !e.RectRender? && !e.LayerRender?
  {
    [ClearPass(color), StagingFinish, Submit, Present, StagingRecall]
  }
}
