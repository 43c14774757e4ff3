/** Reading the declared size back out of a document save_merged_svg wrote:
    the `width`, `height` and `viewBox` attribute values of its root tag. */
module HeaderReader {
  import opened SvgModel
  import opened Serialize

  datatype DeclaredSize = DeclaredSize(width: string, height: string, viewBox: string)

  /** Splits s before its first double quote. */
  function TakeUntilQuote(s: string): (r: (string, string))
    ensures r.0 + r.1 == s
    ensures '"' !in r.0
    ensures r.1 == [] || r.1[0] == '"'
  {
    if s == [] then ([], [])
    else if s[0] == '"' then ([], s)
    else
      var (value, rest) := TakeUntilQuote(s[1..]);
      ([s[0]] + value, rest)
  }

  /** The three attribute values, if doc opens with the header layout. */
  function ReadDeclaredSize(doc: string): Option<DeclaredSize>
  {
    if !(HeadOpen <= doc) then None
    else
      var (width, rest) := TakeUntilQuote(doc[|HeadOpen|..]);
      if !(AfterWidth <= rest) then None
      else
        var (height, rest') := TakeUntilQuote(rest[|AfterWidth|..]);
        if !(AfterHeight <= rest') then None
        else
          var (viewBox, _) := TakeUntilQuote(rest'[|AfterHeight|..]);
          Some(DeclaredSize(width, height, viewBox))
  }

  /** A quote-free value followed by a quote is read exactly. */
  lemma {:induction false} TakeValue(value: string, rest: string)
    requires '"' !in value
    requires rest != [] && rest[0] == '"'
    ensures TakeUntilQuote(value + rest) == (value, rest)
  {
    if value == [] {
      assert value + rest == rest;
    } else {
      assert (value + rest)[1..] == value[1..] + rest;
      TakeValue(value[1..], rest);
      assert [value[0]] + value[1..] == value;
    }
  }

  /** Reading a document laid out as HeadOpen, width, AfterWidth, height,
      AfterHeight, viewBox and a tail that opens with a quote. */
  lemma ReadLaidOut(w: string, h: string, vb: string, tail: string)
    requires '"' !in w && '"' !in h && '"' !in vb
    requires tail != [] && tail[0] == '"'
    ensures ReadDeclaredSize(HeadOpen + (w + (AfterWidth + (h + (AfterHeight + (vb + tail))))))
         == Some(DeclaredSize(w, h, vb))
  {
    var afterH := AfterHeight + (vb + tail);
    var afterW := AfterWidth + (h + afterH);
    var doc := HeadOpen + (w + afterW);
    assert HeadOpen <= doc;
    assert doc[|HeadOpen|..] == w + afterW;
    assert AfterWidth[0] == '"';
    TakeValue(w, afterW);
    assert AfterWidth <= afterW;
    assert afterW[|AfterWidth|..] == h + afterH;
    assert AfterHeight[0] == '"';
    TakeValue(h, afterH);
    assert AfterHeight <= afterH;
    assert afterH[|AfterHeight|..] == vb + tail;
    TakeValue(vb, tail);
  }

  /** Regrouping a concatenation to the right. */
  lemma Regroup(a: string, w: string, b: string, h: string, c: string, vb: string, d: string, body: string, e: string)
    ensures a + w + b + h + c + vb + d + body + e == a + (w + (b + (h + (c + (vb + (d + body + e))))))
  {
  }

  /** Round trip: the document declares exactly the figure's size, and its
      viewBox is `0 0 width height` of that same size. */
  lemma DeclaredSizeRoundTrip(fig: Figure, tostr: Element -> string, tostring: Element -> string)
    requires '"' !in fig.width && '"' !in fig.height
    ensures ReadDeclaredSize(Document(fig, tostr, tostring))
         == Some(DeclaredSize(fig.width, fig.height, ViewBox(fig.width, fig.height)))
  {
    var w, h := fig.width, fig.height;
    var vb := ViewBox(w, h);
    var body := Body(fig.elements, tostr, tostring);
    assert '"' !in vb by {
      assert vb == "0 0 " + w + " " + h;
    }
    Regroup(HeadOpen, w, AfterWidth, h, AfterHeight, vb, HeadClose, body, CloseTag);
    assert HeadClose[0] == '"';
    ReadLaidOut(w, h, vb, HeadClose + body + CloseTag);
  }
}
