/** The proportional layout rules of create_merged_svg: where the labels and the
    diagram go, as fractions of the canvas width w and height h. */
module Layout {

  /** Anchor coordinates shared by the labels. */
  datatype Placement = Placement(titleX: real, titleY: real, rightMargin: real,
                                 dateY: real, descY: real, centerX: real, centerY: real)

  function Place(w: real, h: real): (p: Placement)
    ensures p.titleX == 0.05 * w && p.titleY == 0.08 * h && p.centerY == 0.83 * h
    // the left and right margins are equal, and the caption sits midway between them
    ensures p.titleX == w - p.rightMargin
    ensures p.centerX - p.titleX == p.rightMargin - p.centerX
    // the citation row shares the title's baseline; the description is 15 below it
    ensures p.dateY == p.titleY && p.descY == p.dateY + 15.0
    ensures 0.0 <= w ==> 0.0 <= p.titleX <= p.centerX <= p.rightMargin <= w
    ensures 0.0 <= h ==> 0.0 <= p.titleY <= p.centerY <= h
    // the description row stays on the canvas only when the canvas is tall enough
    ensures p.descY <= h <==> 15.0 <= 0.92 * h
  {
    var titleX := w * 0.05;
    var titleY := h * 0.08;
    var rightMargin := w * 0.95;
    var dateY := titleY;
    var descY := dateY + 15.0;
    Placement(titleX, titleY, rightMargin, dateY, descY, w / 2.0, h * 0.83)
  }

  /** The translate of a dw-by-dh diagram: centred horizontally, with its centre
      5% of the canvas height below the canvas centre. */
  function DiagramTranslate(w: real, h: real, dw: real, dh: real): (t: (real, real))
    ensures t.0 + dw / 2.0 == w / 2.0
    ensures t.1 + dh / 2.0 == h / 2.0 + 0.05 * h
    ensures dw == w && dh == h ==> t == (0.0, 0.05 * h)
  {
    var xCenter := (w - dw) / 2.0;
    var yCenter := (h - dh) / 2.0 + h * 0.05;
    (xCenter, yCenter)
  }
}
