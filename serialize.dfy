/** save_merged_svg: one SVG document string built from the figure's declared
    size and the markup of its items, in order. `tostr` stands for an svgutils
    element's own serialisation, `tostring` for ElementTree's. */
module Serialize {
  import opened SvgModel

  /** The header is these fixed pieces around the declared width and height. */
  const HeadOpen := "<?xml version=\"1.0\" encoding=\"utf-8\"?>\n"
                  + "    <svg xmlns=\"http://www.w3.org/2000/svg\" \n"
                  + "         xmlns:xlink=\"http://www.w3.org/1999/xlink\"\n"
                  + "         width=\""
  const AfterWidth := "\" \n         height=\""
  const AfterHeight := "\"\n         viewBox=\""
  const HeadClose := "\">\n    "
  const CloseTag := "</svg>"

  function ViewBox(width: string, height: string): string
  {
    "0 0 " + width + " " + height
  }

  function Header(width: string, height: string): string
  {
    HeadOpen + width + AfterWidth + height + AfterHeight + ViewBox(width, height) + HeadClose
  }

  /** What one item of the figure adds: svgutils elements their `tostr`,
      XML elements and strings their `tostring`, anything else nothing. */
  function Contribution(e: Element, tostr: Element -> string, tostring: Element -> string): string
  {
    if e.HasToStr() then tostr(e)
    else if e.IsXml() then tostring(e)
    else ""
  }

  function Body(els: seq<Element>, tostr: Element -> string, tostring: Element -> string): string
  {
    if els == [] then "" else Contribution(els[0], tostr, tostring) + Body(els[1..], tostr, tostring)
  }

  /** The document save_merged_svg writes. */
  function Document(fig: Figure, tostr: Element -> string, tostring: Element -> string): string
  {
    Header(fig.width, fig.height) + Body(fig.elements, tostr, tostring) + CloseTag
  }

  /** The body of a concatenation is the concatenation of the bodies. */
  lemma {:induction false} BodyAppend(a: seq<Element>, b: seq<Element>, tostr: Element -> string, tostring: Element -> string)
    ensures Body(a + b, tostr, tostring) == Body(a, tostr, tostring) + Body(b, tostr, tostring)
  {
    if a == [] {
      assert a + b == b;
    } else {
      assert (a + b)[1..] == a[1..] + b;
      BodyAppend(a[1..], b, tostr, tostring);
    }
  }

  /** One more item adds its own contribution at the end. */
  lemma BodyStep(els: seq<Element>, i: nat, tostr: Element -> string, tostring: Element -> string)
    requires i < |els|
    ensures Body(els[..i + 1], tostr, tostring) == Body(els[..i], tostr, tostring) + Contribution(els[i], tostr, tostring)
  {
    assert els[..i + 1] == els[..i] + [els[i]];
    BodyAppend(els[..i], [els[i]], tostr, tostring);
    assert Body([els[i]], tostr, tostring) == Contribution(els[i], tostr, tostring) + Body([], tostr, tostring);
  }

  /** Each item's markup stands after the markup of every item before it and
      before the markup of every item after it: the order of the figure is the
      order of the document, so later items paint over earlier ones. */
  lemma ContributionInOrder(els: seq<Element>, i: nat, tostr: Element -> string, tostring: Element -> string)
    requires i < |els|
    ensures Body(els, tostr, tostring)
         == Body(els[..i], tostr, tostring) + Contribution(els[i], tostr, tostring) + Body(els[i + 1..], tostr, tostring)
  {
    assert els == els[..i + 1] + els[i + 1..];
    BodyAppend(els[..i + 1], els[i + 1..], tostr, tostring);
    BodyStep(els, i, tostr, tostring);
  }

  /** The last item of the figure is the last markup before the closing tag. */
  lemma LastItemPaintsLast(fig: Figure, tostr: Element -> string, tostring: Element -> string)
    requires fig.elements != []
    ensures Document(fig, tostr, tostring)
         == Header(fig.width, fig.height) + Body(fig.elements[..|fig.elements| - 1], tostr, tostring)
            + Contribution(fig.elements[|fig.elements| - 1], tostr, tostring) + CloseTag
  {
    var n := |fig.elements|;
    ContributionInOrder(fig.elements, n - 1, tostr, tostring);
    assert fig.elements[n..] == [];
  }

  /** The items that contribute markup. */
  function Rendered(els: seq<Element>): (r: seq<Element>)
    ensures forall e | e in r :: e in els && (e.HasToStr() || e.IsXml())
  {
    if els == [] then []
    else if els[0].HasToStr() || els[0].IsXml() then [els[0]] + Rendered(els[1..])
    else Rendered(els[1..])
  }

  /** Items that are neither svgutils elements nor XML contribute nothing:
      dropping them leaves the body unchanged. */
  lemma {:induction false} ForeignItemsIgnored(els: seq<Element>, tostr: Element -> string, tostring: Element -> string)
    ensures Body(Rendered(els), tostr, tostring) == Body(els, tostr, tostring)
  {
    if els != [] {
      ForeignItemsIgnored(els[1..], tostr, tostring);
      if els[0].HasToStr() || els[0].IsXml() {
        assert ([els[0]] + Rendered(els[1..]))[1..] == Rendered(els[1..]);
      }
    }
  }

  /** The loop of save_merged_svg: appends each item's markup, in order, to `prefix`. */
  method AppendItems(prefix: string, els: seq<Element>, tostr: Element -> string, tostring: Element -> string)
    returns (svgStr: string)
    ensures svgStr == prefix + Body(els, tostr, tostring)
  {
    svgStr := prefix;
    for i := 0 to |els|
      invariant svgStr == prefix + Body(els[..i], tostr, tostring)
    {
      var element := els[i];
      ghost var before := svgStr;
      if element.HasToStr() {
        svgStr := svgStr + tostr(element);
      } else if element.IsXml() {
        svgStr := svgStr + tostring(element);
      }
      assert svgStr == before + Contribution(element, tostr, tostring);
      BodyStep(els, i, tostr, tostring);
    }
    assert els[..|els|] == els;
  }

  /** save_merged_svg without its file write: the string it writes, and the
      figure it leaves behind. `figure.getroot()` moves the figure's items into
      a new group (lxml moves a node it appends), so the figure keeps its size
      and loses its items. */
  method SaveMergedSvg(fig: Figure, tostr: Element -> string, tostring: Element -> string)
    returns (svgStr: string, emptied: Figure)
    ensures svgStr == Document(fig, tostr, tostring)
    ensures emptied == fig.(elements := [])
  {
    emptied := fig.(elements := []);
    svgStr := AppendItems(Header(fig.width, fig.height), fig.elements, tostr, tostring);
    svgStr := svgStr + CloseTag;
  }

  /** Saving the same figure twice: the first save has taken the figure's
      items, so the second writes only the header and the closing tag. The two
      strings agree exactly when the items contribute no markup. */
  method SaveTwice(fig: Figure, tostr: Element -> string, tostring: Element -> string)
    returns (first: string, second: string)
    ensures first == Document(fig, tostr, tostring)
    ensures second == Header(fig.width, fig.height) + CloseTag
    ensures first == second <==> Body(fig.elements, tostr, tostring) == ""
  {
    var afterFirst, afterSecond;
    first, afterFirst := SaveMergedSvg(fig, tostr, tostring);
    second, afterSecond := SaveMergedSvg(afterFirst, tostr, tostring);
    assert |first| == |second| + |Body(fig.elements, tostr, tostring)|;
    assert Body(fig.elements, tostr, tostring) == "" ==> first == second;
  }
}
