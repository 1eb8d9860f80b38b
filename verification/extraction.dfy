/**
  Choosing and normalising the page text that is sent for summarisation.

  HTML parsing and CSS selector matching belong to the parsing library and
  are not modelled: a parsed page is given as its elements in document order
  (each with its tag name, id, class list and text content) together with the
  text content of `body`.
 */
module Extraction {
  import opened Options
  import opened Whitespace
  import opened Cleanup

  /** Longest content ever sent for summarisation, in UTF-16 code units. */
  const MaxContentLength: nat := 14000

  /** One element of the parsed document. Tag names are lower-case, as the
      HTML parser produces them; `id` is "" when the attribute is absent. */
  datatype Element = Element(tag: string, id: string, classes: set<string>, text: string)

  /** A parsed page: its elements in document order and the body's text. */
  datatype Page = Page(elements: seq<Element>, bodyText: string)

  /** A simple selector: a type selector, an id selector or a class
      selector. */
  datatype Selector = Type(name: string) | Id(name: string) | Class(name: string)

  predicate Matches(sel: Selector, e: Element) {
    match sel
    case Type(n) => e.tag == n
    case Id(n) => e.id == n
    case Class(n) => n in e.classes
  }

  /** The selector list `article, main, #main, .main-content, .entry-content`. */
  const MainSelectors: seq<Selector> :=
    [Type("article"), Type("main"), Id("main"), Class("main-content"), Class("entry-content")]

  /** An element matches the selector list when it matches any one of the
      five selectors. */
  predicate IsMainCandidate(e: Element)
    ensures IsMainCandidate(e) <==> exists k :: 0 <= k < |MainSelectors| && Matches(MainSelectors[k], e)
  {
    assert Matches(MainSelectors[0], e) <==> e.tag == "article";
    assert Matches(MainSelectors[1], e) <==> e.tag == "main";
    assert Matches(MainSelectors[2], e) <==> e.id == "main";
    assert Matches(MainSelectors[3], e) <==> "main-content" in e.classes;
    assert Matches(MainSelectors[4], e) <==> "entry-content" in e.classes;
    || e.tag == "article"
    || e.tag == "main"
    || e.id == "main"
    || "main-content" in e.classes
    || "entry-content" in e.classes
  }

  /** Index of the first element, in document order, that the selector list
      matches (`.first()`). A comma selector yields its matches in document
      order, so the order of the five selectors in the list does not matter. */
  function FirstMain(els: seq<Element>): (r: Option<nat>)
    ensures r.None? <==> forall j :: 0 <= j < |els| ==> !IsMainCandidate(els[j])
    ensures r.Some? ==> r.value < |els| && IsMainCandidate(els[r.value])
    ensures r.Some? ==> forall j :: 0 <= j < r.value ==> !IsMainCandidate(els[j])
    decreases |els|
  {
    if |els| == 0 then None
    else if IsMainCandidate(els[0]) then Some(0)
    else
      match FirstMain(els[1..])
      case None => None
      case Some(i) => Some(i + 1)
  }

  /** `$(selector).first().text()`: the empty string when nothing matches. */
  function FirstMainText(p: Page): (t: string)
    ensures (forall j :: 0 <= j < |p.elements| ==> !IsMainCandidate(p.elements[j])) ==> t == ""
    ensures forall i ::
      (0 <= i < |p.elements| && IsMainCandidate(p.elements[i])
       && (forall j :: 0 <= j < i ==> !IsMainCandidate(p.elements[j])))
      ==> t == p.elements[i].text
  {
    match FirstMain(p.elements)
    case None => ""
    case Some(i) => p.elements[i].text
  }

  /** The raw page text: the first match's text when it is non-empty, the
      body's text otherwise. */
  function ChosenText(p: Page): (t: string)
    ensures t == p.bodyText || exists i :: 0 <= i < |p.elements| && t == p.elements[i].text != ""
  {
    var main := FirstMainText(p);
    if main != "" then main else p.bodyText
  }

  /** `s.substring(0, MAX_CONTENT_LENGTH)` when `s` is longer than the limit. */
  function Truncate(s: string): (r: string)
    ensures |r| <= MaxContentLength
    ensures r <= s
    ensures |s| <= MaxContentLength ==> r == s
    ensures |s| > MaxContentLength ==> |r| == MaxContentLength
  {
    if |s| > MaxContentLength then s[..MaxContentLength] else s
  }

  /** The content the handler sends on, or "" when extraction failed. It is a
      prefix of the cleaned text, so it never starts with whitespace and never
      holds two adjacent whitespace code units; it is empty exactly when the
      raw text was all whitespace; and since truncation comes after trimming,
      it can end in whitespace only when it was truncated. */
  function ExtractContent(p: Page): (c: string)
    ensures |c| <= MaxContentLength
    ensures c <= Clean(ChosenText(p))
    ensures |Clean(ChosenText(p))| <= MaxContentLength ==> c == Clean(ChosenText(p))
    ensures |Clean(ChosenText(p))| > MaxContentLength ==> |c| == MaxContentLength
    ensures NoDoubleWs(c)
    ensures |c| == 0 || !IsWs(c[0])
    ensures |c| == 0 <==> AllWs(ChosenText(p))
    ensures |c| > 0 && IsWs(c[|c| - 1]) ==> |Clean(ChosenText(p))| > MaxContentLength
  {
    var cleaned := Clean(ChosenText(p));
    CleanEmptyIff(ChosenText(p));
    TruncateKeepsShape(cleaned);
    Truncate(cleaned)
  }

  /** A prefix of a cleaned text keeps its shape at the front. */
  lemma TruncateKeepsShape(s: string)
    requires NoDoubleWs(s) && Trimmed(s)
    ensures NoDoubleWs(Truncate(s))
    ensures |Truncate(s)| == 0 || !IsWs(Truncate(s)[0])
    ensures |Truncate(s)| == 0 <==> |s| == 0
    ensures |Truncate(s)| > 0 && IsWs(Truncate(s)[|Truncate(s)| - 1]) ==> |s| > MaxContentLength
  {
    var c := Truncate(s);
    SliceNoDoubleWs(s, 0, |c|);
    assert s[0..|c|] == c;
    if |s| <= MaxContentLength {
      assert c == s;
    }
  }

  /** When element `i` is the first match in document order, whatever its
      kind, the raw text is its text if that is non-empty and the body's text
      otherwise; a later match is never consulted. */
  lemma ChosenTextFirstMatch(p: Page, i: nat)
    requires i < |p.elements| && IsMainCandidate(p.elements[i])
    requires forall j :: 0 <= j < i ==> !IsMainCandidate(p.elements[j])
    ensures p.elements[i].text != "" ==> ChosenText(p) == p.elements[i].text
    ensures p.elements[i].text == "" ==> ChosenText(p) == p.bodyText
  {
    assert FirstMain(p.elements) == Some(i);
  }

  /** With no match at all, the raw text is the body's text. */
  lemma ChosenTextNoMatch(p: Page)
    requires forall j :: 0 <= j < |p.elements| ==> !IsMainCandidate(p.elements[j])
    ensures ChosenText(p) == p.bodyText
  {
  }

  /** Elements after the first match never influence the choice, even when
      the first match's text is empty and a later match's text is not. */
  lemma ChosenTextIgnoresLaterElements(p: Page, rest: seq<Element>)
    requires exists j :: 0 <= j < |p.elements| && IsMainCandidate(p.elements[j])
    ensures ChosenText(Page(p.elements + rest, p.bodyText)) == ChosenText(p)
  {
    var i := FirstMain(p.elements).value;
    var q := Page(p.elements + rest, p.bodyText);
    assert forall j :: 0 <= j < i ==> q.elements[j] == p.elements[j];
    ChosenTextFirstMatch(q, i);
    ChosenTextFirstMatch(p, i);
  }

  /** A cleaned text of more than the limit whose code unit at the cut is a
      space: the text in the body of a page without matches. */
  function SpaceAtCut(): (s: string)
    ensures |s| == MaxContentLength + 1
    ensures s[MaxContentLength - 1] == ' '
    ensures NoDoubleWs(s) && Trimmed(s)
  {
    seq(MaxContentLength + 1, i => if i == MaxContentLength - 1 then ' ' else 'a')
  }

  /** Because truncation follows trimming, the content sent on can end in a
      space. */
  lemma ContentMayEndInSpace()
    ensures exists p :: var c := ExtractContent(p); |c| > 0 && c[|c| - 1] == ' '
  {
    var s := SpaceAtCut();
    var p := Page([], s);
    ChosenTextNoMatch(p);
    CleanKeepsCleanText(s);
    var c := ExtractContent(p);
    assert c[|c| - 1] == s[MaxContentLength - 1];
  }
}
