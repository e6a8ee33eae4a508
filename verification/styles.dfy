/** The text-formatting properties the watcher reads and rewrites, as a plain
    record: the typeface (family, style, weight, stretch), the rendering
    em-size and the foreground brush.  Rendering itself is not modelled. */
module Styles {

  datatype FontStyle = Normal | Oblique | Italic

  /** An ARGB colour. */
  datatype Color = Color(a: nat, r: nat, g: nat, b: nat)

  /** A foreground brush: a solid colour with its opacity, or any other kind
      of brush (gradient, image, ...), which the fade rule leaves alone. */
  datatype Brush = SolidColor(color: Color, opacity: real) | OtherBrush(kind: string)

  datatype Typeface = Typeface(family: string, style: FontStyle, weight: int, stretch: int)

  /** An immutable snapshot of a classification's text properties; the
      Set... members build a new snapshot with one part replaced. */
  datatype TextProps = TextProps(typeface: Typeface, emSize: real, foreground: Brush) {
    function SetTypeface(t: Typeface): TextProps { this.(typeface := t) }
    function SetFontRenderingEmSize(size: real): TextProps { this.(emSize := size) }
    function SetForegroundBrush(b: Brush): TextProps { this.(foreground := b) }
  }

  /** The family substituted for comments: it has better-looking italics
      than a monospaced code font. */
  const SubstituteFamily: string := "Lucida Sans"
  /** The weight of FontWeights.Normal. */
  const NormalWeight: int := 400
  /** Restyled entries are this much smaller than the "text" classification. */
  const SizeReduction: real := 1.0
  /** The opacity a faded brush gets. */
  const FadedOpacity: real := 0.7

  predicate IsItalic(p: TextProps) {
    p.typeface.style == Italic
  }

  /** The fade rule applies only to a solid brush at full opacity. */
  predicate CanFade(p: TextProps) {
    p.foreground.SolidColor? && p.foreground.opacity == 1.0
  }

  /** The italicize rule on one snapshot: an italic entry is kept as it is;
      any other becomes italic in the substitute family at normal weight,
      keeps its stretch and brush, and takes an em-size one below the
      "text" classification's. */
  function Italicized(p: TextProps, textEmSize: real): (r: TextProps)
    ensures IsItalic(r)
    ensures r.foreground == p.foreground
    ensures IsItalic(p) ==> r == p
    ensures !IsItalic(p) ==>
      r.typeface == Typeface(SubstituteFamily, Italic, NormalWeight, p.typeface.stretch) &&
      r.emSize == textEmSize - 1.0
  {
    if IsItalic(p) then p
    else
      p.SetTypeface(Typeface(SubstituteFamily, Italic, NormalWeight, p.typeface.stretch))
       .SetFontRenderingEmSize(textEmSize - SizeReduction)
  }

  /** The fade rule on one snapshot: an entry whose brush is not solid, or
      whose opacity is not 1.0, is kept as it is; any other keeps its colour
      at opacity 0.7 and takes an em-size one below the "text"
      classification's.  The typeface is never touched. */
  function Faded(p: TextProps, textEmSize: real): (r: TextProps)
    ensures !CanFade(r)
    ensures r.typeface == p.typeface
    ensures !CanFade(p) ==> r == p
    ensures CanFade(p) ==>
      r.foreground == SolidColor(p.foreground.color, FadedOpacity) &&
      r.emSize == textEmSize - 1.0
  {
    if !CanFade(p) then p
    else
      p.SetFontRenderingEmSize(textEmSize - SizeReduction)
       .SetForegroundBrush(SolidColor(p.foreground.color, FadedOpacity))
  }

  /** Applying either rule a second time changes nothing, whatever the
      baseline size is the second time. */
  lemma RulesIdempotent(p: TextProps, e1: real, e2: real)
    ensures Italicized(Italicized(p, e1), e2) == Italicized(p, e1)
    ensures Faded(Faded(p, e1), e2) == Faded(p, e1)
  {
  }

  /** Each rule preserves what the other one establishes: italicizing
      keeps the brush, fading keeps the typeface.  The two rules also
      commute, which is a fact about the record only: no pass applies both
      to the same classification (see FormatPass.PlanMembers). */
  lemma RulesCommute(p: TextProps, e: real)
    ensures Faded(Italicized(p, e), e) == Italicized(Faded(p, e), e)
    ensures IsItalic(Faded(Italicized(p, e), e))
    ensures !CanFade(Italicized(Faded(p, e), e))
  {
  }
}
