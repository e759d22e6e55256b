/** The values the compositor reads and emits: styled cells ("sugar"), the
    rectangles and text spans it queues, and the layout fields it reads. */
module SugarCells {

  datatype Option<+T> = None | Some(value: T)

  /** An RGBA colour. The source stores f32/f64 components; reals stand in for them. */
  datatype Color = Rgba(r: real, g: real, b: real, a: real)

  /** The style flags of a cell. */
  datatype SugarStyle = SugarStyle(isItalic: bool, isBold: bool, isBoldItalic: bool)

  /** An overlay drawn over a cell (underline, strike-through, cursor block). */
  datatype SugarDecoration = SugarDecoration(
    relativePosition: (real, real),
    size: (real, real),
    color: Color)

  /** One grid cell: its character, colours, optional style and optional decoration. */
  datatype Sugar = Sugar(
    content: char,
    foregroundColor: Color,
    backgroundColor: Color,
    style: Option<SugarStyle>,
    decoration: Option<SugarDecoration>)

  /** One row of cells, left to right. */
  type SugarStack = seq<Sugar>

  /** A quad queued for the rectangle batch. */
  datatype Rect = Rect(position: (real, real), color: Color, size: (real, real))

  /** The text attributes a span carries: font family, weight and slant. */
  datatype Weight = Normal | Bold
  datatype FontStyle = Upright | Italic
  datatype Attrs = Attrs(family: string, weight: Weight, style: FontStyle)
  {
    function WithWeight(w: Weight): Attrs { this.(weight := w) }
    function WithStyle(s: FontStyle): Attrs { this.(style := s) }
  }

  /** A piece of text queued for shaping, with its attributes. */
  datatype Span = Span(text: string, attrs: Attrs)

  /** The background image descriptor: a raster image and the rectangle it fills. */
  datatype Rectangle = Rectangle(width: real, height: real, x: real, y: real)
  datatype Image = Raster(path: string, bounds: Rectangle)
  datatype ImageProperties = ImageProperties(path: string, width: real, height: real, x: real, y: real)

  /** The cell geometry the layout derives from the window size and scale. */
  datatype Geometry = Geometry(sugarheight: real, lineHeight: real)

  /** The layout fields the compositor reads. */
  datatype Layout = Layout(geometry: Geometry, backgroundColor: Color, backgroundImage: Option<Image>)
}
