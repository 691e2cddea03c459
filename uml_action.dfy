/**
 * The server action of the generator: the prompt sent to the language model,
 * and the extraction of the PlantUML block from the model's free-form reply.
 * The regular expression of the source is modelled without regular
 * expressions; `MatchAt` and `IsRegexMatch` restate what the expression
 * matches, and the lemmas below show that the extractor agrees with them.
 */
module UmlAction {
  import opened Wrappers
  import opened JsText

  /** The tagged opening fence the reply is searched for. */
  const Opener: string := "```plantuml"
  /** The closing fence. */
  const Fence: string := "```"

  // ---------------------------------------------------------------------
  // What the regular expression /```plantuml([\s\S]*?)```/ matches
  // ---------------------------------------------------------------------

  /** The expression can match with its opener at `j` and its closing fence
      at `k`; the capture group is then `s[j + |Opener|..k]`. */
  ghost predicate MatchAt(s: string, j: nat, k: nat)
  {
    OccursAt(s, Opener, j) && j + |Opener| <= k && OccursAt(s, Fence, k)
  }

  /** The match `String.prototype.match` reports for a non-global expression:
      the leftmost start, and for it the shortest capture (the lazy `*?`). */
  ghost predicate IsRegexMatch(s: string, j: nat, k: nat)
  {
    && MatchAt(s, j, k)
    && (forall j': nat, k': nat :: j' < j ==> !MatchAt(s, j', k'))
    && (forall k': nat :: k' < k ==> !MatchAt(s, j, k'))
  }

  /** `if (match && match[1]) return match[1].trim()`: an empty capture is
      falsy and yields `null`; any other capture is trimmed. */
  function CaptureResult(capture: string): (r: Option<string>)
    ensures r == None <==> capture == []
    ensures r.Some? ==> IsTrimmed(r.value) && (r.value == [] <==> AllWhitespace(capture))
  {
    if capture == [] then None else Some(Trim(capture))
  }

  /** A slice free of the pattern gives a trimmed text free of it too. */
  lemma TrimKeepsAbsence(capture: string, pat: string)
    requires !Contains(capture, pat)
    ensures !Contains(Trim(capture), pat)
  {
    var r := Trim(capture);
    var a := SkipWhitespace(capture, 0);
    assert r == capture[a..a + |r|];
    SliceKeepsAbsence(capture, a, a + |r|, pat);
  }

  /** `extractPlantUMLCode`: the trimmed text between the first "```plantuml"
      and the first "```" after it, or `None` when there is no such block or
      the text between them is empty. */
  function ExtractPlantUmlCode(responseText: string): (r: Option<string>)
    ensures r.Some? ==> IsTrimmed(r.value)
    ensures r.Some? ==> !Contains(r.value, Fence)
  {
    match IndexOf(responseText, Opener, 0)
    case None => None
    case Some(j) =>
      match IndexOf(responseText, Fence, j + |Opener|)
      case None => None
      case Some(k) =>
        var capture := responseText[j + |Opener|..k];
        assert !Contains(capture, Fence) by {
          forall m: nat | OccursAt(capture, Fence, m) ensures false {
            OccursInSlice(responseText, j + |Opener|, k, Fence, m);
          }
        }
        if capture == [] then None
        else
          TrimKeepsAbsence(capture, Fence);
          CaptureResult(capture)
  }

  /** The extractor's result once both searches have succeeded. */
  lemma ExtractAt(s: string, j: nat, k: nat)
    requires IndexOf(s, Opener, 0) == Some(j) && IndexOf(s, Fence, j + |Opener|) == Some(k)
    ensures ExtractPlantUmlCode(s) == CaptureResult(s[j + |Opener|..k])
  {
  }

  /** The extractor returns what the regular expression captures, trimmed,
      and `None` for an empty capture. */
  lemma ExtractFollowsRegex(s: string, j: nat, k: nat)
    requires IsRegexMatch(s, j, k)
    ensures ExtractPlantUmlCode(s) == CaptureResult(s[j + |Opener|..k])
  {
    assert OccursAt(s, Opener, j);
    var j0 := IndexOf(s, Opener, 0).value;
    assert MatchAt(s, j0, k);
    assert j0 == j;
    assert OccursAt(s, Fence, k);
    var k0 := IndexOf(s, Fence, j + |Opener|).value;
    assert MatchAt(s, j, k0);
    assert k0 == k;
    ExtractAt(s, j, k);
  }

  /** When the regular expression matches nowhere, the result is `None`
      rather than an error. */
  lemma ExtractAbsent(s: string)
    requires forall j: nat, k: nat :: !MatchAt(s, j, k)
    ensures ExtractPlantUmlCode(s) == None
  {
    match IndexOf(s, Opener, 0)
    case None =>
    case Some(j) =>
      match IndexOf(s, Fence, j + |Opener|)
      case None =>
      case Some(k) =>
        assert MatchAt(s, j, k);
  }

  /** Whenever the expression can match at all, a leftmost lazy match exists:
      it starts at the first opener, however many blocks follow. */
  lemma RegexMatchExists(s: string, j: nat, k: nat)
    requires MatchAt(s, j, k)
    ensures exists j': nat, k': nat :: IsRegexMatch(s, j', k')
  {
    var j0 := IndexOf(s, Opener, 0).value;
    assert OccursAt(s, Fence, k) && j0 + |Opener| <= k;
    var k0 := IndexOf(s, Fence, j0 + |Opener|).value;
    assert MatchAt(s, j0, k0);
    forall j': nat, k': nat | j' < j0 ensures !MatchAt(s, j', k') { }
    assert IsRegexMatch(s, j0, k0);
  }

  /** Only the first block counts: text appended after a complete block,
      further fenced blocks included, does not change the result. */
  lemma ExtractIgnoresLaterText(s: string, t: string, j: nat, k: nat)
    requires MatchAt(s, j, k)
    ensures ExtractPlantUmlCode(s + t) == ExtractPlantUmlCode(s)
  {
    assert OccursAt(s, Opener, j);
    var j0 := IndexOf(s, Opener, 0).value;
    IndexOfAppend(s, t, Opener, 0);
    assert OccursAt(s, Fence, k);
    var k0 := IndexOf(s, Fence, j0 + |Opener|).value;
    IndexOfAppend(s, t, Fence, j0 + |Opener|);
    assert (s + t)[j0 + |Opener|..k0] == s[j0 + |Opener|..k0];
    ExtractAt(s, j0, k0);
    ExtractAt(s + t, j0, k0);
  }

  /** "```plantuml" has no proper prefix that is also a suffix, so two
      occurrences of it never overlap. */
  lemma OpenerNoOverlap(s: string, p: nat, j: nat)
    requires OccursAt(s, Opener, p) && j < p < j + |Opener|
    ensures !OccursAt(s, Opener, j)
  {
    var d := p - j;
    assert s[p..p + |Opener|][0] == '`';
    if d >= 3 {
      assert s[j..j + |Opener|][d] == s[p];
    } else {
      assert s[p..p + |Opener|][3 - d] == '`';
      assert s[j..j + |Opener|][3] == s[p..p + |Opener|][3 - d];
    }
  }

  /** In a reply made of prose without an opener and then a block, no
      opener starts inside the prose. */
  lemma NoOpenerBeforeBlock(pre: string, rest: string, j: nat)
    requires !Contains(pre, Opener) && j < |pre|
    ensures !OccursAt(pre + Opener + rest, Opener, j)
  {
    var s := pre + Opener + rest;
    assert s[|pre|..|pre| + |Opener|] == Opener;
    if j + |Opener| <= |pre| {
      assert s[j..j + |Opener|] == pre[j..j + |Opener|];
      assert !OccursAt(pre, Opener, j);
    } else {
      OpenerNoOverlap(s, |pre|, j);
    }
  }

  /** No fence starts between the opener's end and the fence that closes a
      payload free of fences and not ending in a backtick. */
  lemma NoFenceInsideBlock(head: string, payload: string, post: string, k: nat)
    requires !Contains(payload, Fence)
    requires payload == [] || payload[|payload| - 1] != '`'
    requires |head| <= k < |head| + |payload|
    ensures !OccursAt(head + payload + Fence + post, Fence, k)
  {
    var s := head + payload + Fence + post;
    var end := |head| + |payload|;
    if k + |Fence| <= |s| {
      if k + |Fence| <= end {
        assert s[k..k + |Fence|] == payload[k - |head|..k - |head| + |Fence|];
        assert !OccursAt(payload, Fence, k - |head|);
      } else {
        var i := end - 1 - k;
        assert s[end - 1] == payload[|payload| - 1];
        assert s[k..k + |Fence|][i] == s[end - 1];
        assert Fence[i] == '`';
      }
    }
  }

  /** A reply made of prose without an opener, one block and any text after
      it yields that block's trimmed payload. The payload must not hold a
      fence and must not end in a backtick, since either would close the
      block earlier. */
  lemma ExtractSingleBlock(pre: string, payload: string, post: string)
    requires !Contains(pre, Opener)
    requires !Contains(payload, Fence)
    requires payload == [] || payload[|payload| - 1] != '`'
    ensures ExtractPlantUmlCode(pre + Opener + payload + Fence + post) == CaptureResult(payload)
  {
    var s := pre + Opener + payload + Fence + post;
    var j, k := |pre|, |pre| + |Opener| + |payload|;
    assert s[j..j + |Opener|] == Opener;
    assert s[k..k + |Fence|] == Fence;
    assert s[j + |Opener|..k] == payload;
    forall j': nat, k': nat | j' < j ensures !MatchAt(s, j', k') {
      assert s == pre + Opener + (payload + Fence + post);
      NoOpenerBeforeBlock(pre, payload + Fence + post, j');
    }
    forall k': nat | k' < k ensures !MatchAt(s, j, k') {
      if j + |Opener| <= k' {
        assert s == (pre + Opener) + payload + Fence + post;
        NoFenceInsideBlock(pre + Opener, payload, post, k');
      }
    }
    assert IsRegexMatch(s, j, k);
    ExtractFollowsRegex(s, j, k);
  }

  /** Two blocks in a reply: the second one is ignored. */
  lemma FirstBlockWins(pre: string, first: string, mid: string, second: string, post: string)
    requires !Contains(pre, Opener)
    requires !Contains(first, Fence)
    requires first == [] || first[|first| - 1] != '`'
    ensures ExtractPlantUmlCode(pre + Opener + first + Fence + mid + Opener + second + Fence + post)
         == CaptureResult(first)
  {
    var rest := mid + Opener + second + Fence + post;
    assert pre + Opener + first + Fence + mid + Opener + second + Fence + post
        == pre + Opener + first + Fence + rest;
    ExtractSingleBlock(pre, first, rest);
  }

  /** The class diagram of the end-to-end example. */
  const ClassCode: string := "class Customer\n" + "class Order\n" + "Customer --> Order"

  /** A reply with a block and prose before it, as a model typically
      answers: "Here you go:", a line break, then the fenced block. */
  lemma ExtractClassDiagramReply()
    ensures ExtractPlantUmlCode("Here you go:\n" + Opener + "\n" + ClassCode + "\n" + Fence) == Some(ClassCode)
  {
    var pre := "Here you go:\n";
    var payload := "\n" + ClassCode + "\n";
    assert pre + Opener + payload + Fence + "" == pre + Opener + "\n" + ClassCode + "\n" + Fence;
    forall k: nat ensures !OccursAt(pre, Opener, k) {
      NoBacktickNoOccurrence(pre, Opener, k);
    }
    ClassPayloadFacts();
    ExtractSingleBlock(pre, payload, "");
  }

  /** The payload of that block holds no fence and trims to the code. */
  lemma ClassPayloadFacts()
    ensures !Contains("\n" + ClassCode + "\n", Fence)
    ensures Trim("\n" + ClassCode + "\n") == ClassCode
  {
    ClassPayloadNoFence();
    ClassPayloadTrim();
  }

  lemma ClassPayloadNoFence()
    ensures !Contains("\n" + ClassCode + "\n", Fence)
  {
    var payload := "\n" + ClassCode + "\n";
    assert '`' !in payload;
    forall k: nat ensures !OccursAt(payload, Fence, k) {
      NoBacktickNoOccurrence(payload, Fence, k);
    }
  }

  lemma ClassPayloadTrim()
    ensures Trim("\n" + ClassCode + "\n") == ClassCode
  {
    var payload := "\n" + ClassCode + "\n";
    assert payload[0] == '\n' && payload[|payload| - 1] == '\n';
    assert payload[1..1 + |ClassCode|] == ClassCode;
    assert ClassCode[0] == "class Customer\n"[0];
    assert ClassCode[|ClassCode| - 1] == "Customer --> Order"[17];
    TrimUnique(payload, ClassCode, 1);
  }

  /** A refusal without any block yields `None`. */
  lemma ExtractRefusal()
    ensures ExtractPlantUmlCode("I cannot generate a diagram for that.") == None
  {
    var s := "I cannot generate a diagram for that.";
    forall j: nat, k: nat ensures !MatchAt(s, j, k) {
      NoBacktickNoOccurrence(s, Opener, j);
    }
    ExtractAbsent(s);
  }

  // ---------------------------------------------------------------------
  // The prompt and the action
  // ---------------------------------------------------------------------

  const PromptIntro: string := "Generate "
  const PromptStory: string := " PlantUML code for the following story: "
  const PromptRules: string := ". Return only the UML code, no additional text, no markdown or explanations. Learn updated syntax from the following diagram templates: "

  /** The prompt of `generateUMLAction`; `templatesJson` is the serialised
      template table. The diagram type is passed through unchecked. */
  function Prompt(diagramType: string, description: string, templatesJson: string): (p: string)
    ensures |p| == |diagramType| + |description| + |templatesJson| + |PromptIntro + PromptStory + PromptRules|
    ensures p[..|PromptIntro|] == PromptIntro
    ensures OccursAt(p, diagramType, |PromptIntro|)
    ensures OccursAt(p, description, |PromptIntro| + |diagramType| + |PromptStory|)
    ensures p[|p| - |templatesJson|..] == templatesJson
  {
    PromptIntro + diagramType + PromptStory + description + PromptRules + templatesJson
  }

  /** The prompt mentions the diagram type and then the description, verbatim. */
  lemma PromptMentionsInputs(diagramType: string, description: string, templatesJson: string)
    ensures exists i: nat, j: nat ::
      && OccursAt(Prompt(diagramType, description, templatesJson), diagramType, i)
      && OccursAt(Prompt(diagramType, description, templatesJson), description, j)
      && i + |diagramType| <= j
  {
    var i := |PromptIntro|;
    var j := i + |diagramType| + |PromptStory|;
    assert OccursAt(Prompt(diagramType, description, templatesJson), diagramType, i);
    assert OccursAt(Prompt(diagramType, description, templatesJson), description, j);
  }

  /** Distinct requests give distinct prompts: once the lengths of the type
      and of the templates are known, the prompt determines every input. */
  lemma PromptDeterminesInputs(t1: string, d1: string, j1: string, t2: string, d2: string, j2: string)
    requires Prompt(t1, d1, j1) == Prompt(t2, d2, j2)
    requires |t1| == |t2| && |j1| == |j2|
    ensures t1 == t2 && d1 == d2 && j1 == j2
  {
    var p := Prompt(t1, d1, j1);
    var a := |PromptIntro|;
    var b := a + |t1| + |PromptStory|;
    assert t1 == p[a..a + |t1|] == t2;
    assert d1 == p[b..b + |d1|] == d2;
    assert j1 == p[|p| - |j1|..] == j2;
  }

  /** What the language model does with a prompt: a text reply, or an error
      (transport failure, exhausted quota, a blocked response). */
  datatype ModelReply = Reply(text: string) | ModelError(cause: string)

  /** `generateUMLAction`: asks the model with the prompt, returns the
      extracted code (possibly `None`), and rethrows the model's error as is. */
  function GenerateUmlAction(description: string, diagramType: string, templatesJson: string,
                             model: string -> ModelReply): (r: Result<Option<string>, string>)
    ensures r.Failure? <==> model(Prompt(diagramType, description, templatesJson)).ModelError?
    ensures r.Failure? ==> r.error == model(Prompt(diagramType, description, templatesJson)).cause
    ensures r.Success? ==> r.value == ExtractPlantUmlCode(model(Prompt(diagramType, description, templatesJson)).text)
  {
    match model(Prompt(diagramType, description, templatesJson))
    case Reply(text) => Success(ExtractPlantUmlCode(text))
    case ModelError(cause) => Failure(cause)
  }

  const ClassStory: string := "A Customer places Orders; each Order has many OrderItems"

  /** The end-to-end example: a class-diagram request whose reply holds one
      block yields that block's code; the prompt names the type and the story. */
  lemma GenerateClassDiagram(templatesJson: string, model: string -> ModelReply)
    requires model(Prompt("class", ClassStory, templatesJson))
          == Reply("Here you go:\n" + Opener + "\n" + ClassCode + "\n" + Fence)
    ensures GenerateUmlAction(ClassStory, "class", templatesJson, model) == Success(Some(ClassCode))
    ensures Contains(Prompt("class", ClassStory, templatesJson), "class")
    ensures Contains(Prompt("class", ClassStory, templatesJson), ClassStory)
  {
    ExtractClassDiagramReply();
    var p := Prompt("class", ClassStory, templatesJson);
    assert OccursAt(p, "class", |PromptIntro|);
    assert OccursAt(p, ClassStory, |PromptIntro| + |"class"| + |PromptStory|);
  }
}
