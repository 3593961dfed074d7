/** The `update_output` callback: on a click, parse the pasted text with the
    parser the dropdown names and list the IMDB codes; before any click, or
    with nothing pasted, show nothing. The Dash components are reduced to what
    they display. */
module App {
  import opened Text
  import opened Patterns
  import opened Parsers
  import opened ImdbCodes

  /** What the links area shows: nothing, the parsed records, or the message
      "No links found in the input text.". */
  datatype LinksOutput = LinksBlank | LinkList(records: seq<Record>) | NoLinksFound

  /** What the IMDB area shows: nothing, or a list (possibly empty) of codes. */
  datatype CodesOutput = CodesBlank | CodeList(codes: seq<string>)

  datatype Output = Output(links: LinksOutput, codes: CodesOutput)

  /** Python truth of `n_clicks`: absent (`None`) and `0` are false. */
  predicate Clicked(nClicks: Option<int>) {
    nClicks.Some? && nClicks.value != 0
  }

  /** Python truth of a text box's value: absent (`None`) and `""` are false. */
  predicate Given(text: Option<string>) {
    text.Some? && |text.value| > 0
  }

  /** The records of the parser the dropdown value selects; any other value,
      or none, selects no parser and gives no records. */
  function ParsedData(cls: CharClasses, linkType: Option<string>, text: string): (rs: seq<Record>)
    ensures linkType == Some("hubcloud") ==> rs == ParseHubcloud(cls, text)
    ensures linkType == Some("gdtot") ==> rs == ParseGdtot(cls, text)
    ensures linkType != Some("hubcloud") && linkType != Some("gdtot") ==> rs == []
  {
    if linkType == Some("hubcloud") then ParseHubcloud(cls, text)
    else if linkType == Some("gdtot") then ParseGdtot(cls, text)
    else []
  }

  /** `update_output(n_clicks, link_type, input_text, imdb_text)`. */
  function UpdateOutput(cls: CharClasses, nClicks: Option<int>, linkType: Option<string>,
                        inputText: Option<string>, imdbText: Option<string>): (out: Output)
    ensures !Clicked(nClicks) || !Given(inputText) ==> out == Output(LinksBlank, CodesBlank)
    ensures Clicked(nClicks) && Given(inputText) ==>
              && out.links != LinksBlank
              && (out.links.LinkList? ==> |out.links.records| > 0)
              && (out.links == NoLinksFound <==> ParsedData(cls, linkType, inputText.value) == [])
              && (Given(imdbText) <==> out.codes.CodeList?)
    ensures out.links.LinkList? ==> out.links.records == ParsedData(cls, linkType, inputText.value)
    ensures out.codes.CodeList? ==> imdbText.Some? && out.codes.codes == Codes(cls.space, imdbText.value)
  {
    if !Clicked(nClicks) || !Given(inputText) then Output(LinksBlank, CodesBlank)
    else
      var parsed := ParsedData(cls, linkType, inputText.value);
      var links := if |parsed| > 0 then LinkList(parsed) else NoLinksFound;
      var codes := if Given(imdbText) then CodeList(Codes(cls.space, imdbText.value)) else CodesBlank;
      Output(links, codes)
  }

  /** With a click and pasted text, the links area shows the no-links message
      exactly when the selected parser finds no match anywhere, or when the
      dropdown names neither parser. */
  lemma NoLinksMessage(cls: CharClasses, nClicks: Option<int>, linkType: Option<string>,
                       inputText: Option<string>, imdbText: Option<string>)
    requires Clicked(nClicks) && Given(inputText)
    ensures UpdateOutput(cls, nClicks, linkType, inputText, imdbText).links == NoLinksFound <==>
              || (linkType == Some("hubcloud") && NoMatchAnywhere(cls, ShapeOf(cls, Hubcloud), inputText.value))
              || (linkType == Some("gdtot") && NoMatchAnywhere(cls, ShapeOf(cls, Gdtot), inputText.value))
              || (linkType != Some("hubcloud") && linkType != Some("gdtot"))
  {
  }

  /** The two areas are computed independently: the links do not depend on the
      IMDB text, and the codes do not depend on the dropdown or the pasted text
      once the callback runs. */
  lemma OutputsIndependent(cls: CharClasses, nClicks: Option<int>, linkType: Option<string>, linkType': Option<string>,
                           inputText: Option<string>, inputText': Option<string>,
                           imdbText: Option<string>, imdbText': Option<string>)
    requires Clicked(nClicks) && Given(inputText) && Given(inputText')
    ensures UpdateOutput(cls, nClicks, linkType, inputText, imdbText).links ==
            UpdateOutput(cls, nClicks, linkType, inputText, imdbText').links
    ensures UpdateOutput(cls, nClicks, linkType, inputText, imdbText).codes ==
            UpdateOutput(cls, nClicks, linkType', inputText', imdbText).codes
  {
  }
}
