/** Resolving the canvas size from the template's declared width and height. */
module Canvas {
  import opened SvgModel

  const DefaultWidth: int := 1500
  const DefaultHeight: int := 900

  /** What `float(attr or default)` does: a value or one of two kinds of exception. */
  datatype Conversion = Converted(n: PyNum) | RaisedValueError | RaisedTypeError

  function FloatOr(a: DimAttr, default: int): Conversion
  {
    match a
    case Falsy => Converted(PyFloat(default as real))
    case Numeric(v) => Converted(PyFloat(v))
    case NotANumber => RaisedValueError
    case Unconvertible => RaisedTypeError
  }

  /** The `try` block of create_merged_svg: width is converted first, then
      height; AttributeError or TypeError from either replaces BOTH with the
      integer defaults; ValueError is not caught and aborts composition. */
  function ResolveCanvas(w: DimAttr, h: DimAttr): (r: Result<(PyNum, PyNum), ComposeError>)
    ensures r.Err? <==> w.NotANumber? || (!w.Unconvertible? && h.NotANumber?)
    ensures r.Err? ==> r.error == ValueError
    ensures r.Ok? && (w.Unconvertible? || h.Unconvertible?) ==>
              r.value == (PyInt(1500), PyInt(900))
    ensures r.Ok? && !w.Unconvertible? && !h.Unconvertible? ==>
              r.value == (PyFloat(if w.Numeric? then w.v else 1500.0),
                          PyFloat(if h.Numeric? then h.v else 900.0))
  {
    match FloatOr(w, DefaultWidth)
    case RaisedTypeError => Ok((PyInt(DefaultWidth), PyInt(DefaultHeight)))
    case RaisedValueError => Err(ValueError)
    case Converted(wn) =>
      match FloatOr(h, DefaultHeight)
      case RaisedTypeError => Ok((PyInt(DefaultWidth), PyInt(DefaultHeight)))
      case RaisedValueError => Err(ValueError)
      case Converted(hn) => Ok((wn, hn))
  }

  /** The two dimensions fall back together: either both come from the
      exception handler or neither does. */
  lemma FallbackIsJoint(w: DimAttr, h: DimAttr)
    requires ResolveCanvas(w, h).Ok?
    ensures ResolveCanvas(w, h).value.0.PyInt? <==> ResolveCanvas(w, h).value.1.PyInt?
    ensures ResolveCanvas(w, h).value.0.PyInt? <==> (w.Unconvertible? || h.Unconvertible?)
  {
  }
}
