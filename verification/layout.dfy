/** The text-block measurements the renderer and the hit tester share:
    lines, line height, widest line and block height of an element.

    Text measurement (`ctx.measureText(line).width` under the element's
    `bold <size>px "<font>"`) is the caller-supplied `Measure`. */
module Layout {
  import opened Document
  import Lines

  /** Width of one line of text in a font and pixel size. */
  type Measure = (string, int, string) -> real

  /** `lineHeight = size * 1.2`. */
  function LineHeight(size: int): real {
    size as real * 1.2
  }

  /** `el.text.toString().split('\n')`. */
  function LinesOf(e: Element): (ls: seq<string>)
    ensures |ls| >= 1
  {
    Lines.Split(e.text)
  }

  function LineWidths(e: Element, m: Measure): (ws: seq<real>)
    ensures |ws| == |LinesOf(e)|
    ensures forall i :: 0 <= i < |ws| ==> ws[i] == m(e.font, e.size, LinesOf(e)[i])
  {
    var ls := LinesOf(e);
    seq(|ls|, i requires 0 <= i < |ls| => m(e.font, e.size, ls[i]))
  }

  /** `maxWidth || 50`: the widest line, or 50 when that is 0. */
  function DisplayWidth(e: Element, m: Measure): (w: real)
    ensures w > 0.0
  {
    var widest := Lines.MaxWidth(LineWidths(e, m));
    if widest == 0.0 then 50.0 else widest
  }

  /** The display width covers every line, and is either some line's
      measured width or the 50-pixel stand-in. The stand-in is used exactly
      when no line has a positive width; otherwise the display width is the
      widest line's. */
  lemma DisplayWidthCoversLines(e: Element, m: Measure)
    ensures forall i :: 0 <= i < |LinesOf(e)| ==> m(e.font, e.size, LinesOf(e)[i]) <= DisplayWidth(e, m)
    ensures DisplayWidth(e, m) == 50.0 ||
      exists i :: 0 <= i < |LinesOf(e)| && m(e.font, e.size, LinesOf(e)[i]) == DisplayWidth(e, m)
    ensures (forall i :: 0 <= i < |LinesOf(e)| ==> m(e.font, e.size, LinesOf(e)[i]) <= 0.0) ==>
      DisplayWidth(e, m) == 50.0
    ensures (exists i :: 0 <= i < |LinesOf(e)| && m(e.font, e.size, LinesOf(e)[i]) > 0.0) ==>
      exists i :: 0 <= i < |LinesOf(e)| && m(e.font, e.size, LinesOf(e)[i]) == DisplayWidth(e, m)
  {
    var ws := LineWidths(e, m);
    var widest := Lines.MaxWidth(ws);
    assert forall i :: 0 <= i < |ws| ==> ws[i] <= widest;
    if exists i :: 0 <= i < |ws| && ws[i] > 0.0 {
      var i :| 0 <= i < |ws| && ws[i] > 0.0;
      assert widest > 0.0;
      assert DisplayWidth(e, m) == widest;
    } else {
      assert widest == 0.0;
    }
  }

  /** `(lines.length * lineHeight) || size`, the height `isHit` and the
      selection box give a text block. */
  function BoxHeight(e: Element): real {
    var stack := |LinesOf(e)| as real * LineHeight(e.size);
    if stack == 0.0 then e.size as real else stack
  }

  /** Every text has at least one line, so the `|| size` fallback only fires
      when the size is 0, where both readings agree: the block is always
      exactly as tall as its lines. */
  lemma BoxHeightIsStack(e: Element)
    ensures BoxHeight(e) == |LinesOf(e)| as real * LineHeight(e.size)
  {
    var n := |LinesOf(e)| as real;
    if n * LineHeight(e.size) == 0.0 {
      assert n >= 1.0;
      assert e.size == 0;
    }
  }
}
