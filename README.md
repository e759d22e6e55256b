# Sugarloaf compositor, modelled in Dafny

This project models the `Sugarloaf` compositor of the rio terminal's rendering crate. It covers two parts:

- **The row compositor** (`Sugarloaf::stack`). It makes one left-to-right pass over a row of cells ("sugar").
  - Adjacent cells with equal content, foreground and background colour, and no decoration on either cell, are folded into one run by a `RepeatedSugar` accumulator.
  - Every finished run queues at most one styled text span, one background quad ten units wide per cell, and one overlay quad when its ending cell carries a decoration.
  - After the row, a line-terminator span is queued and the whole pending span list is handed to the text buffer.
- **The pending-frame lifecycle.** This is the setters, `pile_rects` and `resize`/`rescale`, plus `render` and `clear`.
  - These two ask the surface for a frame and then run the frame's stages in a fixed order.
  - With a frame, `render` drains the pending quads and spans.
  - An out-of-memory surface error aborts the process; any other error drops the frame and leaves everything pending.

Layout of the project:

- `cells.dfy` (`SugarCells`): the values, i.e. cells, colours, quads, spans, attributes and layout fields.
- `row.dfy` (`RowCompositor`): the row's meaning as functions.
  - The merge test and the run decomposition (`Pending`, `OpenRun`, `RunsUpTo`, `Runs`).
  - The style precedence and what each run emits.
  - `SpansUpTo` and `RectsUpTo`: what is queued after each cell, which is what the loop's invariant follows.
  - The step lemmas that connect these functions to the loop, and the lemma that equates them with the run-by-run output.
- `row_lemmas.dfy` (`RowProperties`): what the decomposition is and what a row adds up to.
  - It is the unique tiling of the row by maximal runs.
  - A run ends exactly at the cells that do not fold forward, and decorated cells are runs of their own.
  - Quantities sum to the row length, and background width is ten per cell.
  - Quad and span counts.
- `repeated.dfy` (`Accumulator`): the run accumulator as a class. It is reconstructed from how the compositor calls it.
- `frame.dfy` (`FrameProtocol`): the GPU and text-service calls as events, and the surface-acquisition outcome and its policy.
- `sugarloaf.dfy` (`Compositor`): the compositor as a class.
  - Its pending quads and spans are `seq` fields.
  - A ghost `trace` records the external calls in order.
  - `Stack` is the loop itself, proved to append exactly `RowSpans` and `RowRects`.

The surface result is an input (`Acquisition`). Layout recomputation on resize and rescale belongs to code that is not part of this model, so the recomputed cell geometry is a parameter. What `RepeatedSugar` builds as its content string is not part of this model either. `Stack` therefore takes `contentOf`, the text the accumulator builds from the cells handed to it since its last reset.

## Model

| member | source | states |
|---|---|---|
| RowCompositor.StyleAttrsPrecedence | sugarloaf/src/sugarloaf.rs:275-289 | No style gives the plain attributes. Otherwise a span is selected iff some flag is set. The weight is bold iff bold-italic or bold is set. The slant is italic iff bold-italic is set, or italic is set without bold. The family is always the fixed one. |
| RowCompositor.Pending | sugarloaf/src/sugarloaf.rs:234-251 | The accumulator count after cells [0, n): the number of consecutive folded cells just before n, never more than n. |
| RowCompositor.RunsUpTo | sugarloaf/src/sugarloaf.rs:230-358 | The runs finished after cells [0, n). Each ends at a cell before n and has a quantity between 1 and its end index + 1. |
| RowCompositor.OpenRunIsSuffix | sugarloaf/src/sugarloaf.rs:240-358 | The cells held by the accumulator are exactly the last `Pending` cells before n. |
| RowCompositor.EndStep | sugarloaf/src/sugarloaf.rs:246-358 | A cell that does not fold ends a run of quantity count + 1, whose text is the accumulated text when the quantity exceeds one and the cell's own character otherwise. The accumulator is left empty. |
| RowCompositor.FoldStep | sugarloaf/src/sugarloaf.rs:234-244 | A cell that folds into the next is handed to the accumulator and queues nothing. |
| RowCompositor.FinishStep | sugarloaf/src/sugarloaf.rs:246-352 | A cell that does not fold ends a valid run, and processing it queues exactly that run's spans and quads after everything queued before. |
| RowCompositor.UpToIsPerRun | sugarloaf/src/sugarloaf.rs:230-358 | What is queued cell by cell over cells [0, n) equals what the runs finished by then emit, run by run, in order. |
| RowCompositor.RowOutputPerRun | sugarloaf/src/sugarloaf.rs:230-358 | A whole row queues the concatenation of what each of its runs emits, left to right. |
| RowCompositor.AppendRun | sugarloaf/src/sugarloaf.rs:275-352 | A finished run appends its spans and quads after those of the earlier runs, in left-to-right run order. |
| RowProperties.FinishedRunIsMaximal | sugarloaf/src/sugarloaf.rs:234-257 | The run a non-folding cell finishes folds internally and ends on a cell that does not fold. |
| RowProperties.TileStep | sugarloaf/src/sugarloaf.rs:234-358 | Processing one more cell keeps the finished runs maximal and contiguous up to the open run. |
| RowProperties.RunsTileUpTo | sugarloaf/src/sugarloaf.rs:230-244 | The finished runs are maximal and cover every cell before the open run contiguously from cell 0. |
| RowProperties.OpenRunFolds | sugarloaf/src/sugarloaf.rs:234-244 | Every cell held by the accumulator folds into the cell after it. |
| RowProperties.RowIsTiledByMaximalRuns | sugarloaf/src/sugarloaf.rs:230-358 | A row's runs cover the whole row left to right, each folding internally and ending on a cell that does not fold. |
| RowProperties.TilingIsUnique | sugarloaf/src/sugarloaf.rs:230-358 | Any tiling of cells [0, end) by maximal runs equals the computed runs. No run is then open. |
| RowProperties.RunsAreTheMaximalTiling | sugarloaf/src/sugarloaf.rs:230-358 | A sequence of runs is the row's run decomposition iff it tiles the row by maximal runs. |
| RowProperties.FoldRange | sugarloaf/src/sugarloaf.rs:234-244 | A stretch of folding cells finishes no run and grows the count by its length. |
| RowProperties.BoundariesUpTo | sugarloaf/src/sugarloaf.rs:234-246 | Among cells [0, n), a finished run ends at cell i iff cell i does not fold into the next. |
| RowProperties.RunBoundaries | sugarloaf/src/sugarloaf.rs:234-246 | Cell i ends a run iff it is the last cell, or it differs from the next in content or colours, or either carries a decoration. |
| RowProperties.RunsUpToGrows | sugarloaf/src/sugarloaf.rs:230-358 | Finished runs are never revised: the runs after fewer cells are a prefix of the runs after more. |
| RowProperties.DecoratedCellIsOwnRun | sugarloaf/src/sugarloaf.rs:234-239 | A decorated cell ends a run of quantity one, and the cell before it ends the previous run. |
| RowProperties.QuantitiesUpTo | sugarloaf/src/sugarloaf.rs:246-251 | The quantities of the finished runs plus the accumulator count equal the number of cells processed. |
| RowProperties.QuantitiesSumToLength | sugarloaf/src/sugarloaf.rs:246-251 | The quantities of a row's runs sum to the row length. |
| RowProperties.BackgroundWidthAppend | sugarloaf/src/sugarloaf.rs:297-302 | The background width of two quad lists joined is the sum of their widths. |
| RowProperties.BackgroundWidthOfRuns | sugarloaf/src/sugarloaf.rs:297-302 | The background quads of some runs are ten units wide per covered cell. Overlays at x = 10 are not counted. |
| RowProperties.RowBackgroundWidth | sugarloaf/src/sugarloaf.rs:297-302 | The background quads a row queues total ten units per cell. |
| RowProperties.RectCountUpTo | sugarloaf/src/sugarloaf.rs:297-352 | The quads of the runs after cells [0, n) number one per run plus one per decorated cell. |
| RowProperties.RowRectCount | sugarloaf/src/sugarloaf.rs:297-352 | A row queues as many quads as it has runs plus decorated cells. |
| RowProperties.SpanCount | sugarloaf/src/sugarloaf.rs:275-289 | Runs queue at most one span each. They queue exactly one each iff no run ends on a cell whose style sets no flag. |
| RowProperties.DecoratedRowScenario | sugarloaf/src/sugarloaf.rs:234-358 | Four equal cells, the third decorated, form runs of quantities 2, 1 and 1 ending at cells 1, 2 and 3. |
| RowProperties.FlaglessStyleScenario | sugarloaf/src/sugarloaf.rs:275-302 | A lone cell whose style sets no flag queues no span, and one background quad of width 10 at the origin. |
| RowProperties.EmptyRowScenario | sugarloaf/src/sugarloaf.rs:230-360 | An empty row queues no run span and no quad, so only the line terminator is added. |
| FrameProtocol.OutcomeOf | sugarloaf/src/sugarloaf.rs:474-529 | A frame is presented iff the surface hands one out. An out-of-memory error aborts. Any other error drops the frame. |
| FrameProtocol.FrameStageOrder | sugarloaf/src/sugarloaf.rs:474-523 | The frame's stages in order: clear to the background colour, then the image layer prepare and render iff a background image is set, then the quad batch, submit, present and atlas trim. |
| FrameProtocol.ClearEvents | sugarloaf/src/sugarloaf.rs:115-141 | A clear pass in the background colour, then staging finish, submit, present and staging recall, and no quad or layer drawing. |
| Compositor.Sugarloaf.constructor | sugarloaf/src/sugarloaf.rs:69-110 | A new compositor has the given scale, size and layout, and nothing pending. |
| Compositor.Sugarloaf.Resize | sugarloaf/src/sugarloaf.rs:195-200 | Sets the size and recomputed geometry. Pending quads and spans are kept. |
| Compositor.Sugarloaf.Rescale | sugarloaf/src/sugarloaf.rs:202-207 | Sets the scale factor and recomputed geometry. Nothing else changes. |
| Compositor.Sugarloaf.SetBackgroundColor | sugarloaf/src/sugarloaf.rs:380-384 | Changes only the layout's background colour. |
| Compositor.Sugarloaf.SetBackgroundImage | sugarloaf/src/sugarloaf.rs:386-399 | Changes only the layout's background image, to a raster of the given path and bounds. |
| Compositor.Sugarloaf.PileRects | sugarloaf/src/sugarloaf.rs:401-405 | Appends the given quads, in order, after the pending ones. |
| Compositor.Sugarloaf.Stack | sugarloaf/src/sugarloaf.rs:222-368 | Appends the row's spans and the line terminator to the pending spans, and the row's quads to the pending quads, keeping earlier entries. The text buffer receives every pending span. Its frame names only the spans, the quads and the text buffer, so nothing else changes. |
| Compositor.Sugarloaf.ProcessCell | sugarloaf/src/sugarloaf.rs:234-358 | One iteration of the row loop: a folding cell goes to the accumulator, any other cell finishes its run. Either way the queued output grows from that of cells [0, i) to that of cells [0, i + 1), and the accumulator holds the open run. |
| Compositor.Sugarloaf.FinishRun | sugarloaf/src/sugarloaf.rs:246-358 | Finishing a run takes its quantity (count + 1) and text from the accumulator, queues what the run emits, and leaves the accumulator empty. |
| Compositor.Sugarloaf.EmitRun | sugarloaf/src/sugarloaf.rs:271-352 | A finished run queues its precedence-styled span (if any), then its background quad, then its decoration overlay. |
| Compositor.Sugarloaf.Render | sugarloaf/src/sugarloaf.rs:447-530 | Shapes and prepares text, then acquires the surface. With a frame it runs the frame stages on the pending quads and empties quads and spans. On an error the outcome follows the policy and nothing pending changes. |
| Compositor.Sugarloaf.Clear | sugarloaf/src/sugarloaf.rs:113-148 | Acquires the surface. With a frame it runs the clear stages. It has the same error policy as Render, and pending quads and spans are untouched. |

## Left out

- GPU work is not executed. The wgpu device, surface texture, command encoder, render passes, staging belt, queue, and the rect, layer and text brushes are modelled only as events in the ghost trace, in the order the code issues them.
- The text library is left out: cosmic_text shaping, the editor and buffer, the glyph cache and atlas, and how `set_rich_text` lays out spans. `text_brush.prepare(...).unwrap()` can panic on a preparation error, and that panic is not modelled; text preparation always succeeds here.
- `Sugarloaf::new` is reduced to its effect on the modelled fields. It has no device, window or font setup, and it has no error return.
- The `Renderable` trait is an interface over GPU types with no logic.
- `Context::resize` and `SugarloafLayout::resize`, `rescale` and `update` are not part of this model. The geometry they recompute is a parameter of `Resize` and `Rescale`. The model only says the context adopts the new size or scale.
- `RepeatedSugar` is not part of this model. It is reconstructed from its call sites: `count` is the number of `set` calls since the last `reset`, and `content_str` is an unknown function (`contentOf`) of those cells. Whether that text equals the run's full text, including the ending cell, depends on that unseen code.
- Colours and geometry are reals. f32 rounding of quad sizes and positions is not modelled, and neither are NaN colour components, for which f32 equality is not reflexive and which would change the merge test.
- `get_context` and `get_scale` are plain accessors of the context and are not modelled.
- The foreground colour chosen for a run (`fg_color`) is never used, and the attributes returned by `attr.color(...)` are discarded. Neither has an observable effect, so neither is modelled.
- Spans and quads go to two separate lists. The model states their order within each list, not the interleaving of pushes across the two lists.
- The `&mut Self` returned by the setters for chaining is not modelled.
- `sugarloaf/src/font/mod.rs` only declares modules and font-id constants, none of which the compositor reads.
- Commented-out code is not live and is not modelled. This includes `update_font`, `text`, the older `stack`, and the horizontal and top/middle/bottom decoration positioning.
- Compositor.Sugarloaf.Resize: queued quads are kept across a resize and drawn by the next frame with the geometry they were built for. This is what the code does. Nothing drops stale quads.
- Compositor.Sugarloaf.Render: the staging belt is neither finished nor recalled on this path. Only `Clear` does that, and the trace reflects exactly that.
- Compositor.Sugarloaf.Render, Compositor.Sugarloaf.Clear: the panic on an out-of-memory surface error is modelled as the outcome `Panicked` with state unchanged, not as termination.
