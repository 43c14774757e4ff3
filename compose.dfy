/** create_merged_svg: resolve the canvas, lay out the six labels, optionally
    attach the diagram, and build the figure. */
module Compose {
  import opened SvgModel
  import Canvas
  import Layout

  const BoldStyle := "font-weight: bold"
  const UnderlineStyle := "text-decoration: underline"
  const ItalicStyle := "font-style: italic"
  const SourcePrefix := "Source: "

  /** Average glyph widths of the length-based offsets: 18 per character of the
      company name, 6 per character of the citation. */
  const TitleCharWidth := 18
  const CitationCharWidth := 6

  /** Text lxml accepts as a node's text: no ASCII control character other
      than tab, line feed and carriage return. */
  predicate XmlCompatible(s: string)
  {
    forall c | c in s :: c == '\t' || c == '\n' || c == '\r' || c >= ' '
  }

  /** The quotes around the caption are accepted; what decides is the caption itself. */
  lemma QuotingKeepsCompatibility(s: string)
    ensures XmlCompatible("\"" + s + "\"") <==> XmlCompatible(s)
  {
    var q := "\"" + s + "\"";
    if XmlCompatible(q) {
      forall c | c in s ensures c == '\t' || c == '\n' || c == '\r' || c >= ' ' {
        var i :| 0 <= i < |s| && s[i] == c;
        assert q[i + 1] == c && q[i + 1] in q;
      }
    }
  }

  /** Every label text of the infographic is accepted by lxml. */
  predicate LabelsAccepted(f: Fields)
  {
    XmlCompatible(f.companyName) && XmlCompatible(f.typeText) && XmlCompatible(f.citation) &&
    XmlCompatible(f.description) && XmlCompatible(f.centerDescription)
  }

  /** `sankey_svg_path and os.path.exists(sankey_svg_path)`, then a load that does not raise. */
  predicate DiagramAttached(path: string, fileExists: bool, diagram: Load<Fragment>)
  {
    path != "" && fileExists && diagram.Loaded?
  }

  /** The seven base elements on a w-by-h canvas, in paint order: the template
      root, the bold company name, the type label after it, the "Source: "
      prefix left of the citation, the underlined citation at the right margin,
      the description below it, and the quoted italic caption. */
  predicate BaseLayout(els: seq<Element>, root: Fragment, w: real, h: real, f: Fields)
  {
    |els| >= 7 &&
    els[0] == TemplateRoot(root) &&
    els[1] == Label(TextSpec(0.05 * w, 0.08 * h, f.companyName, 24, Start, Some(BoldStyle))) &&
    els[2] == Label(TextSpec(els[1].spec.x + (TitleCharWidth * |f.companyName|) as real, els[1].spec.y,
                             f.typeText, 24, Start, None)) &&
    els[4] == Label(TextSpec(0.95 * w, els[1].spec.y, f.citation, 10, End, Some(UnderlineStyle))) &&
    els[3] == Label(TextSpec(els[4].spec.x - (CitationCharWidth * |f.citation|) as real, els[4].spec.y,
                             SourcePrefix, 10, End, None)) &&
    els[5] == Label(TextSpec(els[4].spec.x, els[4].spec.y + 15.0, f.description, 10, End, None)) &&
    els[6] == Label(TextSpec(w / 2.0, 0.83 * h, "\"" + f.centerDescription + "\"", 16, Middle, Some(ItalicStyle)))
  }

  /** create_merged_svg. `str` stands for Python's number-to-string conversion. */
  method CreateMergedSvg(template: Load<Template>, f: Fields, diagramPath: string, diagramExists: bool,
                         diagram: Load<Fragment>, str: PyNum -> string)
    returns (r: Result<Figure, ComposeError>)
    ensures template.Raised? ==> r == Err(TemplateLoadFailed)
    ensures template.Loaded? ==>
              (r.Err? <==> Canvas.ResolveCanvas(template.value.width, template.value.height).Err? || !LabelsAccepted(f))
    ensures template.Loaded? && r.Err? ==> r.error == ValueError
    ensures r.Ok? ==>
              template.Loaded? &&
              var dims := Canvas.ResolveCanvas(template.value.width, template.value.height);
              dims.Ok? && LabelsAccepted(f) &&
              // the figure's declared size is the canvas size, with or without a diagram
              r.value.width == str(dims.value.0) && r.value.height == str(dims.value.1) &&
              BaseLayout(r.value.elements, template.value.root, dims.value.0.Value(), dims.value.1.Value(), f) &&
              // the diagram layer is all or nothing, painted last, at scale 1
              |r.value.elements| == (if DiagramAttached(diagramPath, diagramExists, diagram) then 8 else 7) &&
              (DiagramAttached(diagramPath, diagramExists, diagram) ==>
                 r.value.elements[7] == DiagramGroup(diagram.value, 0.0, 0.05 * dims.value.1.Value(), 1.0))
  {
    if template.Raised? {
      return Err(TemplateLoadFailed);
    }
    var t := template.value;
    var dims := Canvas.ResolveCanvas(t.width, t.height);
    if dims.Err? {
      return Err(dims.error);
    }
    var (wn, hn) := dims.value;
    var w, h := wn.Value(), hn.Value();
    var p := Layout.Place(w, h);
    QuotingKeepsCompatibility(f.centerDescription);

    // `sg.TextElement` raises ValueError when lxml refuses a label's text
    if !XmlCompatible(f.companyName) { return Err(ValueError); }
    var companyName := Label(TextSpec(p.titleX, p.titleY, f.companyName, 24, Start, Some(BoldStyle)));
    if !XmlCompatible(f.typeText) { return Err(ValueError); }
    var typeText := Label(TextSpec(p.titleX + (|f.companyName| * TitleCharWidth) as real, p.titleY,
                                   f.typeText, 24, Start, None));
    // the prefix is a constant lxml always accepts
    var sourcePrefix := Label(TextSpec(p.rightMargin - (|f.citation| * CitationCharWidth) as real, p.dateY,
                                       SourcePrefix, 10, End, None));
    if !XmlCompatible(f.citation) { return Err(ValueError); }
    var citation := Label(TextSpec(p.rightMargin, p.dateY, f.citation, 10, End, Some(UnderlineStyle)));
    if !XmlCompatible(f.description) { return Err(ValueError); }
    var description := Label(TextSpec(p.rightMargin, p.descY, f.description, 10, End, None));
    if !XmlCompatible("\"" + f.centerDescription + "\"") { return Err(ValueError); }
    var centerDescription := Label(TextSpec(p.centerX, p.centerY, "\"" + f.centerDescription + "\"",
                                            16, Middle, Some(ItalicStyle)));

    var elements := [TemplateRoot(t.root), companyName, typeText, sourcePrefix,
                     citation, description, centerDescription];

    if diagramPath != "" && diagramExists {
      match diagram
      case Loaded(root) =>
        // the diagram is given the template's own size
        var (dx, dy) := Layout.DiagramTranslate(w, h, w, h);
        elements := elements + [DiagramGroup(root, dx, dy, 1.0)];
      case Raised =>
    }
    r := Ok(Figure(str(wn), str(hn), elements));
  }

  /** A diagram whose load raises leaves the figure exactly as if no diagram
      path had been given: failure of the diagram is not fatal and leaves no trace. */
  method DiagramFailureIsHarmless(template: Load<Template>, f: Fields, diagramPath: string, diagramExists: bool,
                                  anyDiagram: Load<Fragment>, str: PyNum -> string)
    returns (failed: Result<Figure, ComposeError>, absent: Result<Figure, ComposeError>)
    ensures failed == absent
  {
    failed := CreateMergedSvg(template, f, diagramPath, diagramExists, Raised, str);
    absent := CreateMergedSvg(template, f, "", diagramExists, anyDiagram, str);
    if failed.Ok? {
      var a, b := failed.value.elements, absent.value.elements;
      assert forall i | 0 <= i < 7 :: a[i] == b[i];
      assert a == b;
    }
  }
}
