/** The image mode that `_open_pdf_as_image` in ctxflow/utils.py chooses
    for the first page's pixmap before handing the samples to
    `Image.frombytes`. */
module PdfMode {
  import opened Wrappers

  /** The PIL modes the table can produce. */
  datatype Mode = L | LA | RGB | RGBA | CMYK

  function ModeName(m: Mode): string
  {
    match m
    case L => "L"
    case LA => "LA"
    case RGB => "RGB"
    case RGBA => "RGBA"
    case CMYK => "CMYK"
  }

  /** The number of bytes per pixel that `Image.frombytes` expects in a mode. */
  function Bands(m: Mode): nat
  {
    match m
    case L => 1
    case LA => 2
    case RGB => 3
    case RGBA => 4
    case CMYK => 4
  }

  predicate HasAlphaBand(m: Mode)
  {
    m == LA || m == RGBA
  }

  /** The mode for a pixmap whose colorspace has `channels` components
      (`None` when it has no colorspace) and whose alpha flag is `alpha`. */
  function PixmapMode(channels: Option<int>, alpha: int): (m: Mode)
    ensures channels.None? ==> m == L
    ensures channels == Some(1) ==> m == (if alpha == 0 then L else LA)
    ensures channels == Some(3) ==> m == (if alpha == 0 then RGB else RGBA)
    ensures channels.Some? && channels.value != 1 && channels.value != 3 ==> m == CMYK
  {
    if channels.None? then L
    else if channels.value == 1 then (if alpha == 0 then L else LA)
    else if channels.value == 3 then (if alpha == 0 then RGB else RGBA)
    else CMYK
  }

  /** For the pixmaps the table is meant for (gray, RGB or CMYK, alpha 0
      or 1, no alpha on CMYK), the chosen mode has exactly as many bands as
      the pixmap has bytes per pixel (colorspace components plus alpha), and
      it has an alpha band exactly when the pixmap has one. A pixmap without
      colorspace is an alpha-only mask of one byte per pixel. */
  lemma ModeMatchesSamples(channels: Option<int>, alpha: int)
    requires alpha == 0 || alpha == 1
    requires channels.None? ==> alpha == 1
    requires channels.Some? ==> channels.value in {1, 3, 4}
    requires channels == Some(4) ==> alpha == 0
    ensures channels.Some? ==> Bands(PixmapMode(channels, alpha)) == channels.value + alpha
    ensures channels.Some? ==> (HasAlphaBand(PixmapMode(channels, alpha)) <==> alpha == 1)
    ensures channels.None? ==> Bands(PixmapMode(channels, alpha)) == alpha
  {
  }
}
