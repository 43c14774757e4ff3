/** create_merged_svg followed by save_merged_svg, as a caller runs them. */
module Pipeline {
  import opened SvgModel
  import Canvas
  import Compose
  import Serialize
  import opened HeaderReader

  /** The written document declares the template's resolved size, whether or
      not a diagram was attached; composition fails only on the template or
      its labels. Numbers print without double quotes. */
  method ComposeAndSerialize(template: Load<Template>, f: Fields, diagramPath: string, diagramExists: bool,
                             diagram: Load<Fragment>, str: PyNum -> string,
                             tostr: Element -> string, tostring: Element -> string)
    returns (r: Result<string, ComposeError>)
    requires forall n :: '"' !in str(n)
    ensures r.Ok? <==> template.Loaded? && Canvas.ResolveCanvas(template.value.width, template.value.height).Ok?
                       && Compose.LabelsAccepted(f)
    ensures r.Ok? ==>
              var dims := Canvas.ResolveCanvas(template.value.width, template.value.height).value;
              ReadDeclaredSize(r.value)
              == Some(DeclaredSize(str(dims.0), str(dims.1), Serialize.ViewBox(str(dims.0), str(dims.1))))
  {
    var figure := Compose.CreateMergedSvg(template, f, diagramPath, diagramExists, diagram, str);
    if figure.Err? {
      return Err(figure.error);
    }
    var svgStr, emptied := Serialize.SaveMergedSvg(figure.value, tostr, tostring);
    DeclaredSizeRoundTrip(figure.value, tostr, tostring);
    r := Ok(svgStr);
  }
}
