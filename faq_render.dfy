/**
 * The two renderings of a parsed FAQ list.
 *
 * `gemini_faq_render_html` appends one `<details>` element per pair;
 * `DecodeItems` reads such markup back, and `DecodeRenderedHtml` shows the
 * markup holds exactly one element per pair, in order, whose summary is the
 * escaped question and whose body is the escaped answer with `nl2br` applied.
 *
 * `gemini_faq_generate_json_ld` (and its inline copy in the generate-and-cache
 * function) builds a schema.org FAQPage value with one `mainEntity` entry per
 * pair; `FaqsOf` reads the pairs back out of it.
 */
module FaqRender {
  import opened PhpString
  import opened FaqParser
  import opened Optional

  // ---------------------------------------------------------------------------
  // nl2br
  // ---------------------------------------------------------------------------

  const Br: string := "<br />"

  /** PHP `nl2br`: "<br />" inserted before each line break ("\r\n", "\n\r", "\n" or "\r"). */
  function Nl2br(s: string): string
    decreases |s|
  {
    if s == [] then []
    else if |s| >= 2 && ((s[0] == '\r' && s[1] == '\n') || (s[0] == '\n' && s[1] == '\r')) then
      Br + (s[..2] + Nl2br(s[2..]))
    else if s[0] == '\n' || s[0] == '\r' then Br + ([s[0]] + Nl2br(s[1..]))
    else [s[0]] + Nl2br(s[1..])
  }

  /** Every "<br />" removed. */
  function StripBr(s: string): string
    decreases |s|
  {
    if s == [] then []
    else if StartsWith(s, Br) then StripBr(s[|Br|..])
    else [s[0]] + StripBr(s[1..])
  }

  lemma StripBrOfBr(w: string)
    ensures StripBr(Br + w) == StripBr(w)
  {
    assert (Br + w)[..|Br|] == Br;
    assert (Br + w)[|Br|..] == w;
  }

  lemma StripBrOfChar(c: char, w: string)
    requires c != '<'
    ensures StripBr([c] + w) == [c] + StripBr(w)
  {
    assert ([c] + w)[1..] == w;
  }

  /** `nl2br` only inserts: on text without '<', removing every "<br />" gives the text back. */
  lemma {:induction false} StripBrNl2br(s: string)
    requires '<' !in s
    ensures StripBr(Nl2br(s)) == s
    decreases |s|
  {
    if s != [] {
      if |s| >= 2 && ((s[0] == '\r' && s[1] == '\n') || (s[0] == '\n' && s[1] == '\r')) {
        var t := s[2..];
        assert '<' !in t by { forall i | 0 <= i < |t| ensures t[i] != '<' { assert t[i] == s[i + 2]; } }
        var two := s[..2];
        assert two == [s[0]] + [s[1]];
        calc {
          StripBr(Nl2br(s));
          StripBr(Br + (two + Nl2br(t)));
          { StripBrOfBr(two + Nl2br(t)); }
          StripBr(two + Nl2br(t));
          { assert two + Nl2br(t) == [s[0]] + ([s[1]] + Nl2br(t)); }
          StripBr([s[0]] + ([s[1]] + Nl2br(t)));
          { StripBrOfChar(s[0], [s[1]] + Nl2br(t)); StripBrOfChar(s[1], Nl2br(t)); }
          [s[0]] + ([s[1]] + StripBr(Nl2br(t)));
          { StripBrNl2br(t); }
          [s[0]] + ([s[1]] + t);
          { assert s == [s[0]] + ([s[1]] + t); }
          s;
        }
      } else {
        var t := s[1..];
        assert '<' !in t by { forall i | 0 <= i < |t| ensures t[i] != '<' { assert t[i] == s[i + 1]; } }
        assert s[0] != '<';
        if s[0] == '\n' || s[0] == '\r' {
          StripBrOfBr([s[0]] + Nl2br(t));
        }
        StripBrOfChar(s[0], Nl2br(t));
        StripBrNl2br(t);
        assert s == [s[0]] + t;
      }
    }
  }

  // ---------------------------------------------------------------------------
  // gemini_faq_render_html
  // ---------------------------------------------------------------------------

  const DetailsOpen: string := "<details class=\"gemini-faq-item\">"
  const SummaryOpen: string := "<summary class=\"gemini-faq-question\">"
  const SummaryClose: string := "</summary>"
  const AnswerOpen: string := "<div class=\"gemini-faq-answer\"><p>"
  const AnswerClose: string := "</p></div>"
  const DetailsClose: string := "</details>"

  /** The element for one pair; `esc` is WordPress `esc_html`, left abstract. */
  function ItemHtml(esc: string -> string, p: FaqPair): string {
    (DetailsOpen + SummaryOpen) + (esc(p.question) + ((SummaryClose + AnswerOpen)
      + (Nl2br(esc(p.answer)) + (AnswerClose + DetailsClose))))
  }

  /** The markup for a list of pairs: their elements, in order. */
  function HtmlOf(esc: string -> string, ps: seq<FaqPair>): string
    decreases |ps|
  {
    if ps == [] then "" else HtmlOf(esc, ps[..|ps| - 1]) + ItemHtml(esc, ps[|ps| - 1])
  }

  /** The four appends of one loop iteration make up one element. */
  lemma Regroup<T>(h: seq<T>, a: seq<T>, b: seq<T>, q: seq<T>, c: seq<T>, d: seq<T>, x: seq<T>, e: seq<T>, f: seq<T>)
    ensures h + a + (b + q + c) + (d + x + e) + f == h + ((a + b) + (q + ((c + d) + (x + (e + f)))))
  {
  }

  /** `gemini_faq_render_html`. */
  method RenderHtml(esc: string -> string, faqs: seq<FaqPair>) returns (html: string)
    ensures html == HtmlOf(esc, faqs)
  {
    html := "";
    for i := 0 to |faqs|
      invariant html == HtmlOf(esc, faqs[..i])
    {
      var faq := faqs[i];
      ghost var before := html;
      html := html + DetailsOpen;
      html := html + (SummaryOpen + esc(faq.question) + SummaryClose);
      html := html + (AnswerOpen + Nl2br(esc(faq.answer)) + AnswerClose);
      html := html + DetailsClose;
      Regroup(before, DetailsOpen, SummaryOpen, esc(faq.question), SummaryClose,
              AnswerOpen, Nl2br(esc(faq.answer)), AnswerClose, DetailsClose);
      assert faqs[..i + 1][..i] == faqs[..i];
    }
    assert faqs[..|faqs|] == faqs;
  }

  // ---------------------------------------------------------------------------
  // Reading the markup back
  // ---------------------------------------------------------------------------

  /** What a reader of the markup sees of one element: its summary and its answer body. */
  datatype Item = Item(summary: string, body: string)

  /** `s` without the prefix `p`, if it has that prefix. */
  function Expect(s: string, p: string): (r: Option<string>)
    ensures r.Some? ==> |r.value| == |s| - |p|
  {
    if StartsWith(s, p) then Some(s[|p|..]) else None
  }

  /** Text up to the first '<'. */
  function TakeText(s: string): (r: string)
    ensures |r| <= |s|
    decreases |s|
  {
    if s == [] || s[0] == '<' then [] else [s[0]] + TakeText(s[1..])
  }

  /** Text up to the first '<' that does not begin a "<br />". */
  function TakeBody(s: string): (r: string)
    ensures |r| <= |s|
    decreases |s|
  {
    if s == [] then []
    else if StartsWith(s, Br) then Br + TakeBody(s[|Br|..])
    else if s[0] == '<' then []
    else [s[0]] + TakeBody(s[1..])
  }

  /** The elements of a run of `<details>` markup, or None if it is not one. */
  function DecodeItems(html: string): Option<seq<Item>>
    decreases |html|
  {
    if html == [] then Some([])
    else
      match Expect(html, DetailsOpen + SummaryOpen)
      case None => None
      case Some(r1) =>
        var q := TakeText(r1);
        match Expect(r1[|q|..], SummaryClose + AnswerOpen)
        case None => None
        case Some(r2) =>
          var b := TakeBody(r2);
          match Expect(r2[|b|..], AnswerClose + DetailsClose)
          case None => None
          case Some(r3) =>
            match DecodeItems(r3)
            case None => None
            case Some(items) => Some([Item(q, b)] + items)
  }

  /** The items a reader sees for `ps`, in order. */
  function ItemsOf(esc: string -> string, ps: seq<FaqPair>): (items: seq<Item>)
    ensures |items| == |ps|
    ensures forall i :: 0 <= i < |ps| ==> items[i] == Item(esc(ps[i].question), Nl2br(esc(ps[i].answer)))
    decreases |ps|
  {
    if ps == [] then []
    else ItemsOf(esc, ps[..|ps| - 1]) + [Item(esc(ps[|ps| - 1].question), Nl2br(esc(ps[|ps| - 1].answer)))]
  }

  /** Both texts of every pair are free of '<', as `esc_html` output always is. */
  predicate EscapedClean(esc: string -> string, ps: seq<FaqPair>) {
    forall i :: 0 <= i < |ps| ==> '<' !in esc(ps[i].question) && '<' !in esc(ps[i].answer)
  }

  function Prepend(xs: seq<Item>, o: Option<seq<Item>>): Option<seq<Item>> {
    match o
    case None => None
    case Some(ys) => Some(xs + ys)
  }

  lemma ExpectAppend(p: string, w: string)
    ensures Expect(p + w, p) == Some(w)
  {
    assert (p + w)[..|p|] == p;
    assert (p + w)[|p|..] == w;
  }

  lemma {:induction false} TakeTextStops(q: string, z: string)
    requires '<' !in q && z != [] && z[0] == '<'
    ensures TakeText(q + z) == q
    decreases |q|
  {
    if q == [] {
      assert q + z == z;
    } else {
      assert (q + z)[0] == q[0];
      assert (q + z)[1..] == q[1..] + z;
      assert '<' !in q[1..] by { forall i | 0 <= i < |q[1..]| ensures q[1..][i] != '<' { assert q[1..][i] == q[i + 1]; } }
      TakeTextStops(q[1..], z);
      assert q == [q[0]] + q[1..];
    }
  }

  lemma TakeBodyOfBr(w: string)
    ensures TakeBody(Br + w) == Br + TakeBody(w)
  {
    assert (Br + w)[..|Br|] == Br;
    assert (Br + w)[|Br|..] == w;
  }

  lemma TakeBodyOfChar(c: char, w: string)
    requires c != '<'
    ensures TakeBody([c] + w) == [c] + TakeBody(w)
  {
    assert ([c] + w)[1..] == w;
  }

  /** The body reader stops exactly where `nl2br` output ends and the closing markup begins. */
  lemma {:induction false} TakeBodyStops(s: string, z: string)
    requires '<' !in s && z != [] && z[0] == '<' && !StartsWith(z, Br)
    ensures TakeBody(Nl2br(s) + z) == Nl2br(s)
    decreases |s|
  {
    if s == [] {
      assert Nl2br(s) + z == z;
    } else if |s| >= 2 && ((s[0] == '\r' && s[1] == '\n') || (s[0] == '\n' && s[1] == '\r')) {
      var t := s[2..];
      assert '<' !in t by { forall i | 0 <= i < |t| ensures t[i] != '<' { assert t[i] == s[i + 2]; } }
      var c0, c1 := s[0], s[1];
      assert s[..2] == [c0] + [c1];
      var tail := Nl2br(t) + z;
      calc {
        TakeBody(Nl2br(s) + z);
        { ConcatAssoc(Br, [c0] + [c1] + Nl2br(t), z); ConcatAssoc([c0] + [c1], Nl2br(t), z);
          ConcatAssoc([c0], [c1], tail); }
        TakeBody(Br + ([c0] + ([c1] + tail)));
        { TakeBodyOfBr([c0] + ([c1] + tail)); }
        Br + TakeBody([c0] + ([c1] + tail));
        { TakeBodyOfChar(c0, [c1] + tail); TakeBodyOfChar(c1, tail); }
        Br + ([c0] + ([c1] + TakeBody(tail)));
        { TakeBodyStops(t, z); }
        Br + ([c0] + ([c1] + Nl2br(t)));
        { ConcatAssoc([c0], [c1], Nl2br(t)); }
        Nl2br(s);
      }
    } else {
      var t := s[1..];
      assert '<' !in t by { forall i | 0 <= i < |t| ensures t[i] != '<' { assert t[i] == s[i + 1]; } }
      var c := s[0];
      assert c != '<';
      var tail := Nl2br(t) + z;
      TakeBodyStops(t, z);
      TakeBodyOfChar(c, tail);
      if c == '\n' || c == '\r' {
        calc {
          TakeBody(Nl2br(s) + z);
          { ConcatAssoc(Br, [c] + Nl2br(t), z); ConcatAssoc([c], Nl2br(t), z); }
          TakeBody(Br + ([c] + tail));
          { TakeBodyOfBr([c] + tail); }
          Br + TakeBody([c] + tail);
        }
      } else {
        ConcatAssoc([c], Nl2br(t), z);
      }
    }
  }

  /** One element followed by any markup reads as that element's item, then the rest. */
  lemma DecodeItem(esc: string -> string, p: FaqPair, rest: string)
    requires '<' !in esc(p.question) && '<' !in esc(p.answer)
    ensures DecodeItems(ItemHtml(esc, p) + rest)
         == Prepend([Item(esc(p.question), Nl2br(esc(p.answer)))], DecodeItems(rest))
  {
    var close := AnswerClose + DetailsClose;
    var q, b := esc(p.question), Nl2br(esc(p.answer));
    assert !StartsWith(close + rest, Br) by { assert (close + rest)[1] == '/'; }
    TakeBodyStops(esc(p.answer), close + rest);
    ConcatAssoc(b, close, rest);
    ConcatAssoc(SummaryClose + AnswerOpen, b + close, rest);
    ConcatAssoc(q, (SummaryClose + AnswerOpen) + (b + close), rest);
    ConcatAssoc(DetailsOpen + SummaryOpen, q + ((SummaryClose + AnswerOpen) + (b + close)), rest);
    DecodeElement(q, b, rest);
  }

  /** The element markup around a summary `q` and a body `b` the readers stop after. */
  lemma DecodeElement(q: string, b: string, rest: string)
    requires '<' !in q
    requires TakeBody(b + (AnswerClose + DetailsClose + rest)) == b
    ensures DecodeItems((DetailsOpen + SummaryOpen) + (q + ((SummaryClose + AnswerOpen) + (b + (AnswerClose + DetailsClose + rest)))))
         == Prepend([Item(q, b)], DecodeItems(rest))
  {
    var open, mid, close := DetailsOpen + SummaryOpen, SummaryClose + AnswerOpen, AnswerClose + DetailsClose;
    var r2 := b + (close + rest);
    var r1 := q + (mid + r2);
    var html := open + r1;
    assert html != [];
    ExpectAppend(open, r1);
    TakeTextStops(q, mid + r2);
    assert r1[|q|..] == mid + r2;
    ExpectAppend(mid, r2);
    assert r2[|b|..] == close + rest;
    ExpectAppend(close, rest);
  }

  /** Reading rendered markup followed by more markup: the pairs' items first, then the rest. */
  lemma {:induction false} DecodeHtmlOf(esc: string -> string, ps: seq<FaqPair>, rest: string)
    requires EscapedClean(esc, ps)
    ensures DecodeItems(HtmlOf(esc, ps) + rest) == Prepend(ItemsOf(esc, ps), DecodeItems(rest))
    decreases |ps|
  {
    if ps == [] {
      PrependNothing(DecodeItems(rest));
      assert HtmlOf(esc, ps) + rest == rest;
    } else {
      var init, last := ps[..|ps| - 1], ps[|ps| - 1];
      EscapedCleanPrefix(esc, ps);
      DecodeHtmlOf(esc, init, ItemHtml(esc, last) + rest);
      DecodeHtmlOfLast(esc, ps, rest);
    }
  }

  lemma PrependNothing(o: Option<seq<Item>>)
    ensures Prepend([], o) == o
  {
    if o.Some? {
      assert [] + o.value == o.value;
    }
  }

  lemma EscapedCleanPrefix(esc: string -> string, ps: seq<FaqPair>)
    requires ps != [] && EscapedClean(esc, ps)
    ensures EscapedClean(esc, ps[..|ps| - 1])
  {
    var init := ps[..|ps| - 1];
    forall i | 0 <= i < |init| ensures '<' !in esc(init[i].question) && '<' !in esc(init[i].answer) {
      assert init[i] == ps[i];
    }
  }

  /** The inductive step of `DecodeHtmlOf`: one more pair at the end. */
  lemma DecodeHtmlOfLast(esc: string -> string, ps: seq<FaqPair>, rest: string)
    requires ps != [] && EscapedClean(esc, ps)
    requires var init, last := ps[..|ps| - 1], ps[|ps| - 1];
      DecodeItems(HtmlOf(esc, init) + (ItemHtml(esc, last) + rest))
        == Prepend(ItemsOf(esc, init), DecodeItems(ItemHtml(esc, last) + rest))
    ensures DecodeItems(HtmlOf(esc, ps) + rest) == Prepend(ItemsOf(esc, ps), DecodeItems(rest))
  {
    var init, last := ps[..|ps| - 1], ps[|ps| - 1];
    var item := Item(esc(last.question), Nl2br(esc(last.answer)));
    calc {
      DecodeItems(HtmlOf(esc, ps) + rest);
      { ConcatAssoc(HtmlOf(esc, init), ItemHtml(esc, last), rest); }
      DecodeItems(HtmlOf(esc, init) + (ItemHtml(esc, last) + rest));
      Prepend(ItemsOf(esc, init), DecodeItems(ItemHtml(esc, last) + rest));
      { DecodeItem(esc, last, rest); }
      Prepend(ItemsOf(esc, init), Prepend([item], DecodeItems(rest)));
      { PrependTwice(ItemsOf(esc, init), [item], DecodeItems(rest)); }
      Prepend(ItemsOf(esc, init) + [item], DecodeItems(rest));
      Prepend(ItemsOf(esc, ps), DecodeItems(rest));
    }
  }

  lemma PrependTwice(xs: seq<Item>, ys: seq<Item>, o: Option<seq<Item>>)
    ensures Prepend(xs, Prepend(ys, o)) == Prepend(xs + ys, o)
  {
    if o.Some? {
      ConcatAssoc(xs, ys, o.value);
    }
  }

  /**
   * The rendered markup holds exactly one element per pair, in order; the
   * summary of each is the escaped question and its body the escaped answer
   * with line breaks marked, from which the escaped answer is recovered.
   */
  lemma DecodeRenderedHtml(esc: string -> string, ps: seq<FaqPair>)
    requires EscapedClean(esc, ps)
    ensures DecodeItems(HtmlOf(esc, ps)) == Some(ItemsOf(esc, ps))
    ensures forall i :: 0 <= i < |ps| ==> StripBr(ItemsOf(esc, ps)[i].body) == esc(ps[i].answer)
  {
    DecodeHtmlOf(esc, ps, "");
    assert HtmlOf(esc, ps) + "" == HtmlOf(esc, ps);
    assert ItemsOf(esc, ps) + [] == ItemsOf(esc, ps);
    BodiesRecoverAnswers(esc, ps);
  }

  lemma BodiesRecoverAnswers(esc: string -> string, ps: seq<FaqPair>)
    requires EscapedClean(esc, ps)
    ensures forall i :: 0 <= i < |ps| ==> StripBr(ItemsOf(esc, ps)[i].body) == esc(ps[i].answer)
  {
    var items := ItemsOf(esc, ps);
    forall i | 0 <= i < |ps| ensures StripBr(items[i].body) == esc(ps[i].answer) {
      StripBrNl2br(esc(ps[i].answer));
    }
  }

  // ---------------------------------------------------------------------------
  // gemini_faq_generate_json_ld
  // ---------------------------------------------------------------------------

  datatype AnswerNode = AnswerNode(kind: string, text: string)
  datatype QuestionNode = QuestionNode(kind: string, name: string, acceptedAnswer: AnswerNode)

  /** The schema.org FAQPage value handed to `json_encode`; `kind` is the "@type" key. */
  datatype FaqPage = FaqPage(context: string, kind: string, mainEntity: seq<QuestionNode>)

  const SchemaContext: string := "https://schema.org"
  const EmptyPage := FaqPage(SchemaContext, "FAQPage", [])

  /** The `mainEntity` entry for one pair. */
  function EntityOf(p: FaqPair): QuestionNode {
    QuestionNode("Question", p.question, AnswerNode("Answer", p.answer))
  }

  /** The FAQPage value for a list of pairs: one entry per pair, in order. */
  function JsonLdOf(ps: seq<FaqPair>): (page: FaqPage)
    ensures page.context == SchemaContext && page.kind == "FAQPage"
    ensures |page.mainEntity| == |ps|
    ensures forall i :: 0 <= i < |ps| ==>
      && page.mainEntity[i].kind == "Question"
      && page.mainEntity[i].name == ps[i].question
      && page.mainEntity[i].acceptedAnswer == AnswerNode("Answer", ps[i].answer)
    decreases |ps|
  {
    if ps == [] then EmptyPage
    else
      var page := JsonLdOf(ps[..|ps| - 1]);
      page.(mainEntity := page.mainEntity + [EntityOf(ps[|ps| - 1])])
  }

  /** The pairs a consumer of the structured data reads back. */
  function FaqsOf(page: FaqPage): seq<FaqPair>
    decreases |page.mainEntity|
  {
    if page.mainEntity == [] then []
    else
      var e := page.mainEntity[0];
      [FaqPair(e.name, e.acceptedAnswer.text)] + FaqsOf(page.(mainEntity := page.mainEntity[1..]))
  }

  lemma {:induction false} FaqsOfEntities(page: FaqPage, ps: seq<FaqPair>)
    requires |page.mainEntity| == |ps|
    requires forall i :: 0 <= i < |ps| ==> page.mainEntity[i] == EntityOf(ps[i])
    ensures FaqsOf(page) == ps
    decreases |ps|
  {
    if ps != [] {
      var page' := page.(mainEntity := page.mainEntity[1..]);
      forall i | 0 <= i < |ps[1..]| ensures page'.mainEntity[i] == EntityOf(ps[1..][i]) {
        assert page'.mainEntity[i] == page.mainEntity[i + 1];
      }
      FaqsOfEntities(page', ps[1..]);
      assert ps == [ps[0]] + ps[1..];
    }
  }

  /** The structured data carries every pair, unchanged and in order. */
  lemma FaqsOfJsonLd(ps: seq<FaqPair>)
    ensures FaqsOf(JsonLdOf(ps)) == ps
  {
    FaqsOfEntities(JsonLdOf(ps), ps);
  }

  /** The loop that fills `mainEntity`, shared by both builders. */
  method BuildJsonLd(faqs: seq<FaqPair>) returns (page: FaqPage)
    ensures page == JsonLdOf(faqs)
  {
    page := EmptyPage;
    for i := 0 to |faqs|
      invariant page == JsonLdOf(faqs[..i])
    {
      var faq := faqs[i];
      page := page.(mainEntity := page.mainEntity + [QuestionNode("Question", faq.question, AnswerNode("Answer", faq.answer))]);
      assert faqs[..i + 1][..i] == faqs[..i];
    }
    assert faqs[..|faqs|] == faqs;
  }

  const ScriptOpen: string := "<script type=\"application/ld+json\">"
  const ScriptClose: string := "</script>"

  /** `gemini_faq_generate_json_ld`: the value, encoded by `encode` (`json_encode`, left abstract), in a script tag. */
  method GenerateJsonLd(encode: FaqPage -> string, faqs: seq<FaqPair>) returns (script: string)
    ensures script == ScriptOpen + encode(JsonLdOf(faqs)) + ScriptClose
  {
    var page := BuildJsonLd(faqs);
    script := ScriptOpen + encode(page) + ScriptClose;
  }
}
