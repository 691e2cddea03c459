/**
 * The generator page: its state, the Generate handler, the template picker,
 * the Generate button's enabling and the status label.
 */
module UmlPage {
  import opened Wrappers
  import opened JsText
  import UmlAction
  import UmlViewer

  /** The arguments a generation sends to the server action. */
  datatype Request = Request(description: string, diagramType: string)

  /** The alert shown when the server action fails. */
  const FailureNotice: string := "Something went wrong/Out of credits"

  /** The page's state. The viewer's hooks run as part of the page, so the
      viewer's state is held here too. */
  class UmlGenerator {
    var description: string
    /** The editor's code; `None` stands for the `null` a reply without a
        block leaves behind. */
    var umlCode: Option<string>
    var isGenerating: bool
    var diagramType: string
    /** The last URL the viewer handed to `setImage`, used for export. */
    var image: string
    const viewer: UmlViewer.Viewer

    /** The viewer's stored URL is well formed, and the page's `image` is
        the URL the viewer last handed to `setImage`, which is the one it
        stored. */
    ghost predicate Valid()
      reads this, viewer
    {
      viewer.Valid() && image == viewer.generatedImage
    }

    /** The initial state of every `useState`. */
    constructor (encode: UmlViewer.Encoder)
      ensures Valid() && fresh(viewer)
      ensures description == "" && umlCode == Some("") && !isGenerating
      ensures diagramType == "class" && image == ""
      ensures viewer.encode == encode && viewer.generatedImage == "" && viewer.effectCode == None
    {
      description := "";
      umlCode := Some("");
      isGenerating := false;
      diagramType := "class";
      image := "";
      viewer := new UmlViewer.Viewer(encode);
    }

    /** The mount effect: the editor starts with the class template when its
        element is attached. */
    method Mount(classTemplate: string, editorAttached: bool)
      requires Valid()
      modifies this
      ensures Valid()
      ensures umlCode == (if editorAttached then Some(classTemplate) else old(umlCode))
      ensures description == old(description) && isGenerating == old(isGenerating)
      ensures diagramType == old(diagramType) && image == old(image)
    {
      if editorAttached {
        umlCode := Some(classTemplate);
      }
    }

    /** The viewer's effect during a commit: when it runs, the URL it computes
        reaches both the viewer and the page's `image`. */
    method CommitViewer()
      requires Valid()
      modifies this, viewer
      ensures Valid()
      ensures viewer.effectCode == Some(umlCode)
      ensures viewer.generatedImage == UmlViewer.ImageUrl(viewer.encode, umlCode)
      ensures old(viewer.effectCode) == Some(umlCode) ==> image == old(image)
      ensures old(viewer.effectCode) != Some(umlCode) ==> image == viewer.generatedImage
      ensures description == old(description) && umlCode == old(umlCode)
      ensures isGenerating == old(isGenerating) && diagramType == old(diagramType)
    {
      var published := viewer.Commit(umlCode);
      if published.Some? {
        image := published.value;
      }
    }

    /** Typing in the description box. */
    method SetDescription(text: string)
      requires Valid()
      modifies this
      ensures Valid()
      ensures description == text
      ensures umlCode == old(umlCode) && isGenerating == old(isGenerating)
      ensures diagramType == old(diagramType) && image == old(image)
    {
      description := text;
    }

    /** Editing the code by hand. */
    method EditCode(text: string)
      requires Valid()
      modifies this
      ensures Valid()
      ensures umlCode == Some(text)
      ensures description == old(description) && isGenerating == old(isGenerating)
      ensures diagramType == old(diagramType) && image == old(image)
    {
      umlCode := Some(text);
    }

    /** `handleTemplateChange`: only the diagram type changes. */
    method HandleTemplateChange(diagramType: string)
      requires Valid()
      modifies this
      ensures Valid()
      ensures this.diagramType == diagramType
      ensures description == old(description) && umlCode == old(umlCode)
      ensures isGenerating == old(isGenerating) && image == old(image)
    {
      this.diagramType := diagramType;
    }

    /** The Generate button is enabled when no generation runs and the
        description holds something other than whitespace. */
    function GenerateEnabled(): (enabled: bool)
      reads this
      ensures enabled <==> !isGenerating && !AllWhitespace(description)
    {
      !(isGenerating || Trim(description) == "")
    }

    /** The label above the preview. */
    function StatusLabel(): (status: string)
      reads this
      ensures status == "Generating..." <==> isGenerating
      ensures status == "Ready" <==> !isGenerating
    {
      if isGenerating then "Generating..." else "Ready"
    }

    /** What the preview shows. */
    function Shown(): (d: UmlViewer.Display)
      reads this, viewer
      ensures d == UmlViewer.Spinner <==> isGenerating
      ensures d.Diagram? <==> !isGenerating && umlCode.Some? && umlCode.value != []
      ensures d.NoDiagram? <==> !isGenerating && (umlCode.None? || umlCode.value == [])
      ensures d.Diagram? ==> d.src == viewer.generatedImage
    {
      viewer.Shown(isGenerating, umlCode)
    }

    /** The first half of `generateUML`, up to the call of the server action:
        a blank description ends the handler at once; otherwise the flag is
        raised and the request is taken from the current state. */
    method BeginGenerate() returns (request: Option<Request>)
      requires Valid()
      modifies this
      ensures Valid()
      ensures request.None? <==> AllWhitespace(old(description))
      ensures request.None? ==> isGenerating == old(isGenerating)
      ensures request.Some? ==> request.value == Request(old(description), old(diagramType)) && isGenerating
      ensures description == old(description) && umlCode == old(umlCode)
      ensures diagramType == old(diagramType) && image == old(image)
    {
      if Trim(description) == "" {
        return None;
      }
      isGenerating := true;
      request := Some(Request(description, diagramType));
    }

    /** The second half of `generateUML`, once the server action settled: a
        result replaces the code, `null` included; a failure leaves the code
        alone and raises the alert; the flag is cleared either way. */
    method SettleGenerate(outcome: Result<Option<string>, string>) returns (notice: Option<string>)
      requires Valid()
      modifies this
      ensures Valid()
      ensures !isGenerating
      ensures umlCode == (if outcome.Success? then outcome.value else old(umlCode))
      ensures notice == (if outcome.Success? then None else Some(FailureNotice))
      ensures description == old(description) && diagramType == old(diagramType) && image == old(image)
    {
      notice := None;
      match outcome {
        case Success(uml) =>
          umlCode := uml;
        case Failure(_) =>
          notice := Some(FailureNotice);
      }
      isGenerating := false;
    }

    /** `generateUML` as one call, the language model being `model` and the
        serialised templates `templatesJson`. */
    method GenerateUml(templatesJson: string, model: string -> UmlAction.ModelReply) returns (notice: Option<string>)
      requires Valid()
      modifies this
      ensures Valid()
      ensures AllWhitespace(old(description)) ==> notice == None && isGenerating == old(isGenerating) && umlCode == old(umlCode)
      ensures !AllWhitespace(old(description)) ==>
        var outcome := UmlAction.GenerateUmlAction(old(description), old(diagramType), templatesJson, model);
        && !isGenerating
        && umlCode == (if outcome.Success? then outcome.value else old(umlCode))
        && notice == (if outcome.Success? then None else Some(FailureNotice))
      ensures description == old(description) && diagramType == old(diagramType) && image == old(image)
    {
      var request := BeginGenerate();
      if request.None? {
        return None;
      }
      var outcome := UmlAction.GenerateUmlAction(request.value.description, request.value.diagramType, templatesJson, model);
      notice := SettleGenerate(outcome);
    }
  }

  /** Once the viewer's effect has run for the current code, the image in
      the preview is the rendering URL of that code, and it is the page's
      `image` too. */
  lemma PreviewShowsCurrentCode(page: UmlGenerator)
    requires page.Valid() && page.viewer.effectCode == Some(page.umlCode)
    ensures page.Shown().Diagram? ==>
      page.Shown().src == page.image == UmlViewer.ImageUrl(page.viewer.encode, page.umlCode)
  {
  }

  /** While a generation runs, the button is disabled, the label reads
      "Generating..." and the preview shows the spinner; otherwise the label
      reads "Ready" and the preview never shows the spinner. */
  lemma GeneratingAgreement(page: UmlGenerator)
    ensures page.isGenerating ==> !page.GenerateEnabled()
    ensures page.StatusLabel() == "Generating..." <==> page.Shown() == UmlViewer.Spinner
  {
  }
}
