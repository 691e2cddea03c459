/**
 * The diagram viewer: the rendering URL built from the editor's code, the
 * choice between spinner, image and placeholder, and the effect that keeps
 * the displayed URL in step with the code.
 */
module UmlViewer {
  import opened Wrappers

  /** The PlantUML server endpoint that renders an encoded diagram as SVG. */
  const PlantUmlServer: string := "https://www.plantuml.com/plantuml/svg/"

  /** `plantumlEncoder.encode` applied to the code the viewer receives, which
      is `null` after a reply without a block. The encoder's compression and
      alphabet belong to a library outside this model: any total function
      may stand for it. */
  type Encoder = Option<string> -> string

  /** The rendering URL: the server endpoint followed by the encoded code. */
  function ImageUrl(encode: Encoder, umlCode: Option<string>): (url: string)
    ensures |url| == |PlantUmlServer| + |encode(umlCode)|
    ensures url[..|PlantUmlServer|] == PlantUmlServer
    ensures url[|PlantUmlServer|..] == encode(umlCode)
  {
    PlantUmlServer + encode(umlCode)
  }

  /** The token a rendering URL carries, or `None` for a URL that does not
      point at the server. */
  function TokenOf(url: string): (token: Option<string>)
    ensures token.Some? <==> PlantUmlServer <= url
    ensures token.Some? ==> PlantUmlServer + token.value == url
  {
    if PlantUmlServer <= url then Some(url[|PlantUmlServer|..]) else None
  }

  /** Every rendering URL points at the server and carries the encoded code. */
  lemma TokenOfImageUrl(encode: Encoder, umlCode: Option<string>)
    ensures TokenOf(ImageUrl(encode, umlCode)) == Some(encode(umlCode))
  {
    assert PlantUmlServer <= ImageUrl(encode, umlCode);
  }

  /** Two codes give the same URL exactly when the encoder gives them the
      same token; in particular, equal codes always give equal URLs. */
  lemma ImageUrlSameIffSameToken(encode: Encoder, a: Option<string>, b: Option<string>)
    ensures ImageUrl(encode, a) == ImageUrl(encode, b) <==> encode(a) == encode(b)
  {
    if ImageUrl(encode, a) == ImageUrl(encode, b) {
      TokenOfImageUrl(encode, a);
      TokenOfImageUrl(encode, b);
    }
  }

  /** What the viewer shows. */
  datatype Display = Spinner | Diagram(src: string) | NoDiagram

  /** The viewer's output: the spinner while a generation runs, otherwise the
      image when the code is a non-empty string (`umlCode?.length > 0`), and
      the placeholder text for `null` or empty code. */
  function Render(isGenerating: bool, umlCode: Option<string>, generatedImage: string): (d: Display)
    ensures isGenerating <==> d == Spinner
    ensures !isGenerating ==> (d.Diagram? <==> umlCode.Some? && umlCode.value != [])
    ensures !isGenerating && !d.Diagram? ==> d == NoDiagram
    ensures d.Diagram? ==> d.src == generatedImage
  {
    if isGenerating then Spinner
    else if umlCode.Some? && |umlCode.value| > 0 then Diagram(generatedImage)
    else NoDiagram
  }

  /** The viewer's state: the URL it displays and the code its effect last
      ran for. */
  class Viewer {
    const encode: Encoder
    var generatedImage: string
    /** The dependency `[umlCode]` of the last effect run; `None` before the
        first commit. */
    var effectCode: Option<Option<string>>

    /** Once the effect has run, the displayed URL is the one for the code it
        ran for. */
    ghost predicate Valid()
      reads this
    {
      effectCode.Some? ==> generatedImage == ImageUrl(encode, effectCode.value)
    }

    constructor (encode: Encoder)
      ensures Valid()
      ensures this.encode == encode && generatedImage == "" && effectCode == None
    {
      this.encode := encode;
      generatedImage := "";
      effectCode := None;
    }

    /** The commit of a render with `umlCode`: the effect runs on the first
        commit and whenever the code differs from the last run's. It returns
        the URL handed to the parent's `setImage`, or `None` when the effect
        did not run. */
    method Commit(umlCode: Option<string>) returns (published: Option<string>)
      requires Valid()
      modifies this
      ensures Valid()
      ensures effectCode == Some(umlCode)
      ensures generatedImage == ImageUrl(encode, umlCode)
      ensures old(effectCode) == Some(umlCode) ==> published == None && generatedImage == old(generatedImage)
      ensures old(effectCode) != Some(umlCode) ==> published == Some(generatedImage)
    {
      if effectCode == Some(umlCode) {
        published := None;
      } else {
        var url := ImageUrl(encode, umlCode);
        published := Some(url);
        generatedImage := url;
        effectCode := Some(umlCode);
      }
    }

    /** What a render with these props shows. */
    function Shown(isGenerating: bool, umlCode: Option<string>): (d: Display)
      reads this
    {
      Render(isGenerating, umlCode, generatedImage)
    }
  }
}
