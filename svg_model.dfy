/** Values handled by the infographic composition engine of imageMerge.py:
    canvas dimensions as Python holds them, the template and diagram documents,
    styled text labels, the figure's elements and the figure itself. */
module SvgModel {

  datatype Option<T> = None | Some(value: T)

  datatype Result<T, E> = Ok(value: T) | Err(error: E)
  {
    predicate IsFailure() { Err? }

    function PropagateFailure<U>(): Result<U, E>
      requires Err?
    {
      Err(error)
    }

    function Extract(): T
      requires Ok?
    {
      value
    }
  }

  /** A Python number. `str` prints the int 1500 as "1500" and the float 1500.0
      as "1500.0", so which of the two a canvas dimension is reaches the output. */
  datatype PyNum = PyInt(i: int) | PyFloat(f: real)
  {
    function Value(): real
    {
      match this
      case PyInt(i) => i as real
      case PyFloat(f) => f
    }
  }

  /** What reading `template.width` (or `.height`) and converting it with `float` meets. */
  datatype DimAttr =
    | Falsy              // None, "" or another false value: `or` substitutes the default
    | Numeric(v: real)   // a value `float` accepts, converting it to v
    | NotANumber         // a string `float` rejects with ValueError, such as "1500px"
    | Unconvertible      // the read or the conversion raises AttributeError or TypeError

  /** A parsed SVG document tree (the template's root, the diagram's root); its
      content is never inspected by the engine. */
  type Fragment(==)

  /** The three SVG `text-anchor` values. */
  datatype Anchor = Start | Middle | End

  /** One text label: position, content, font size, anchor and the `style`
      attribute set on its node, if any. */
  datatype TextSpec = TextSpec(x: real, y: real, content: string, size: nat, anchor: Anchor, style: Option<string>)

  /** An item of the figure. The first three are svgutils elements (they have
      `tostr`); `XmlElement` is an ElementTree element, what `tostring` is
      applied to; `Foreign` is anything else. */
  datatype Element =
    | TemplateRoot(doc: Fragment)
    | Label(spec: TextSpec)
    | DiagramGroup(doc: Fragment, dx: real, dy: real, scale: real)
    | XmlElement(tree: Fragment)
    | Foreign
  {
    predicate HasToStr() { TemplateRoot? || Label? || DiagramGroup? }
    predicate IsXml() { XmlElement? }
  }

  /** An svgutils figure: its declared size (the strings `set_size` stored) and its items in paint order. */
  datatype Figure = Figure(width: string, height: string, elements: seq<Element>)

  /** The five text fields of one infographic. */
  datatype Fields = Fields(companyName: string, typeText: string, citation: string, description: string, centerDescription: string)

  /** A loaded template document. */
  datatype Template = Template(width: DimAttr, height: DimAttr, root: Fragment)

  /** The outcome of `sg.fromfile(path)` (and, for the diagram, everything else in its `try` block). */
  datatype Load<T> = Loaded(value: T) | Raised

  /** The failures that abort composition: the template cannot be loaded, or a
      ValueError (a non-numeric dimension, or label text lxml refuses). */
  datatype ComposeError = TemplateLoadFailed | ValueError
}
