# Infographic composition engine, modelled in Dafny

This project models the composition engine of `imageMerge.py`. The engine takes a template SVG and five text fields: company name, report type, citation, description and a centred caption. It places six styled text labels over the template using percent-of-canvas rules and character-count offsets. It attaches a diagram (a Sankey chart) when one can be loaded. It then writes one standalone SVG document.

Modules, in dependency order:

- `SvgModel` (svg_model.dfy): the values. These are Python numbers (int or float, since `str` prints them differently), the template's width/height attributes, text labels, figure items, the figure, and load outcomes.
- `Canvas` (canvas.dfy): the `try` block that resolves the canvas size, with its 1500×900 fallback.
- `Layout` (layout.dfy): the pure layout arithmetic, with label anchors and the diagram translate.
- `Compose` (compose.dfy): `create_merged_svg`. It is a method because the element list is built and then appended to.
- `Serialize` (serialize.dfy): `save_merged_svg`. A loop accumulates the document string. It is proved against the specification function `Document`, which is header ++ each item's markup in order ++ `</svg>`.
- `HeaderReader` (header_reader.dfy): reads `width`, `height` and `viewBox` back from a written document. It is the partner of the header: the declared size round-trips.
- `Pipeline` (pipeline.dfy): creation followed by serialisation.

Coordinates are exact `real`s. Three foreign operations are function-valued parameters, so the model leaves them uninterpreted:

- Python's `str` of a number (`str`);
- an svgutils element's `tostr` (`tostr`);
- ElementTree's `tostring` (`tostring`).

Whether the diagram file exists is a boolean input. Whether loading the template or the diagram raises is an input too (`Load`).

Where a reader might expect otherwise, the model follows the code:

- Negative canvas dimensions are not rejected.
- A non-numeric `width` or `height` (such as `"1500px"`) is not replaced by the default. `float` raises ValueError, which is not caught, so composition aborts.
- The integer fallback (`1500`, `900`) from the exception handler and the float `1500.0`/`900.0` from `float(... or 1500)` are kept apart, because `str` prints them differently.
- The diagram is always given the template's own size, so its translate is (0, 0.05·H) at scale 1.0.
- Label text that lxml refuses (an ASCII control character other than tab, line feed or carriage return) makes `sg.TextElement` raise ValueError, which aborts composition.
- Saving consumes the figure. `figure.getroot()` builds a new group by appending the figure's items, and lxml moves a node it appends, so the figure keeps its size and loses its items. A second save of the same figure writes only the header and `</svg>`.

## Model

| member | source | states |
|---|---|---|
| Canvas.ResolveCanvas | imageMerge.py:19-24 | Composition fails with ValueError exactly when width is non-numeric, or width converts and height is non-numeric. AttributeError/TypeError from either dimension gives the int pair (1500, 900). Otherwise each dimension is its numeric value, or the float default when the attribute is falsy. |
| Canvas.FallbackIsJoint | imageMerge.py:19-24 | The two dimensions fall back together: width is the exception default exactly when height is, and exactly when either read raised AttributeError/TypeError. |
| Layout.Place | imageMerge.py:31-66 | The title is at (0.05·W, 0.08·H) and the caption's y is 0.83·H. The left and right margins are equal, and the caption's x is midway between them. The citation row shares the title's y; the description is 15 below it. On a non-negative canvas the title, caption and right-margin x lie inside it in left-to-right order, and the title and caption y in top-to-bottom order. The description row is on the canvas exactly when 15 ≤ 0.92·H. |
| Layout.DiagramTranslate | imageMerge.py:84-90 | A dw×dh diagram is centred horizontally, with its centre 5% of H below the canvas centre. Given the canvas's own size, the translate is exactly (0, 0.05·H). |
| Compose.CreateMergedSvg | imageMerge.py:5-103 | A template that fails to load aborts. Composition aborts with ValueError exactly when the dimensions raise it or a label text is one lxml refuses. Otherwise the declared size is `str` of the resolved W, H, with or without a diagram. The elements are, in order: template root; bold company name at (0.05·W, 0.08·H), size 24, start; type label at the same y, shifted right by 18·len(company name); "Source: " at the citation's x − 6·len(citation); underlined citation at (0.95·W, title y), size 10, end; description 15 below; italic caption `"` + text + `"` at (W/2, 0.83·H), size 16, middle. An 8th element, the diagram group at (0, 0.05·H), scale 1.0, is present exactly when the path is non-empty, the file exists and the load does not raise. |
| Compose.DiagramFailureIsHarmless | imageMerge.py:78-101 | A diagram load that raises yields exactly the figure produced with no diagram path: the failure is non-fatal and leaves nothing behind. |
| Serialize.BodyAppend | imageMerge.py:119-123 | The markup of a concatenation of items is the concatenation of their markups. |
| Serialize.ContributionInOrder | imageMerge.py:119-125 | Each item's markup follows the markup of every earlier item and precedes every later one, so the document keeps the figure's paint order. |
| Serialize.LastItemPaintsLast | imageMerge.py:119-125 | The figure's last item (the diagram, when attached) is the last markup before `</svg>`. |
| Serialize.ForeignItemsIgnored | imageMerge.py:119-123 | Items that are neither an svgutils element nor an ElementTree element contribute nothing: dropping them leaves the body unchanged. |
| Serialize.SaveMergedSvg | imageMerge.py:105-125 | The loop's string is the header (XML declaration, `svg` root with namespaces, `width`, `height`, `viewBox="0 0 W H"`), then each item's markup in order, then `</svg>`. The figure is left with its size and no items. |
| Serialize.SaveTwice | imageMerge.py:105-125 | Saving the same figure twice: the first string is the full document; the second is only the header and `</svg>`. The two agree exactly when the items contribute no markup. |
| HeaderReader.DeclaredSizeRoundTrip | imageMerge.py:110-116 | Reading the written document's root tag gives back exactly the figure's width and height, and a viewBox of `0 0` followed by that same width and height. |
| Pipeline.ComposeAndSerialize | imageMerge.py:27-28 | Composition then serialisation succeeds exactly when the template loads, its size resolves and lxml accepts every label text. The written document declares `str` of the resolved template size, whether or not a diagram is attached. |

## Left out

- svgutils and ElementTree internals are not modelled: `sg.fromfile`, `getroot` beyond its emptying of the figure, `TextElement` beyond lxml's refusal of control characters (including its default font family and weight), `GroupElement`, `moveto`/`scale` (the transform text), `tostr` and `tostring`. Elements are abstract constructors, and their markup is an uninterpreted parameter. In svgutils, `SVGFigure.append` given a list wraps the whole list in one group. The model keeps the figure as the ordered item list; the markup function sees the items in the same order.
- File I/O is not modelled. `os.path.exists` is a boolean input. Whether `sg.fromfile` raises is a `Load` input, for the template and for the diagram's whole `try` block. The final `open(...).write` is left out: `SaveMergedSvg` returns the string that would be written. The `print` logging is left out.
- Number formatting is not modelled: `str(template_width)` and the f-string interpolation of `figure.width` are the parameter `str`. Floating-point rounding of `W * 0.05` and the like is replaced by exact reals. `float("nan")` and `float("inf")` are not modelled.
- Text fields that are `None` are not modelled; the fields are strings. A `None` company name or citation would raise TypeError in `len` (imageMerge.py:45, 50). A `None` caption would render as `"None"` (imageMerge.py:69). A `None` type or description would give a label with no text. A `None` diagram path is modelled as the empty string: both are falsy.
- A plain `str` item of the figure (the `str` arm of imageMerge.py:122-123) is not modelled. ElementTree's `tostring` raises on a string, and iterating the group `getroot` returns only yields svgutils elements, so that arm is never reached. Items are svgutils elements, ElementTree elements or foreign values.
- lxml's check of label text is modelled for ASCII control characters only. Other refusals lxml might make for non-ASCII text are not modelled.
- `main` is not modelled: hard-coded paths and demo values.
- report_parser.py is not part of this model: an OpenAI network call and a renaming of five dictionary keys.
- sankeymaticAutomation.py is not part of this model: browser automation, which is external I/O only.
