/** `analyze_news_sentiment`: the configuration and empty-input gate, the
    content block and prompt, and the mapping of the remote model's reply to
    one of four sentiment values. The remote model is a parameter: a total
    function from the prompt to what the call produced. */
module SentimentAnalyzer {
  import opened PyString

  datatype Option<T> = None | Some(value: T)

  /** The four values the classifier may return. */
  datatype Sentiment = Positive | Negative | Neutral | Error

  /** Safety metadata a response may carry: the prompt's block reason and
      each candidate's finish reason. */
  datatype Feedback = Feedback(blockReason: Option<string>, finishReasons: seq<string>)

  /** What the remote call produced: it raised, its text could not be read
      (the SDK's `ValueError` on `response.text`), or it replied with text. */
  datatype RemoteOutcome =
    | Raised
    | TextUnavailable(feedback: Feedback)
    | Reply(text: string, feedback: Feedback)

  /** The string the source returns for each value: a short word of
      lower-case ASCII letters, so it is also a possible normalised reply. */
  function Label(s: Sentiment): (r: string)
    ensures 0 < |r| <= 8
    ensures forall i :: 0 <= i < |r| ==> 'a' <= r[i] <= 'z'
  {
    match s
    case Positive => "positive"
    case Negative => "negative"
    case Neutral => "neutral"
    case Error => "error"
  }

  // ----- content block -----

  /** The content block, by which fields are present; it is empty exactly
      when both fields are. */
  function Content(title: string, description: string): (r: string)
    ensures r == "" <==> title == "" && description == ""
  {
    if description != "" && title != "" then "Description: " + description + "\n" + "Title: " + title
    else if description != "" then "Description: " + description + "\n"
    else if title != "" then "Title: " + title
    else ""
  }

  /** The block after the two appends, before the title-only reassignment. */
  function Appended(title: string, description: string): string {
    (if description != "" then "Description: " + description + "\n" else "")
    + (if title != "" then "Title: " + title else "")
  }

  /** The block built step by step, as the source does. */
  method BuildContent(title: string, description: string) returns (content: string)
    ensures content == Content(title, description)
  {
    content := "";
    if description != "" {
      content := content + "Description: " + description + "\n";
    }
    if title != "" {
      content := content + "Title: " + title;
    }
    assert content == Appended(title, description);
    if description == "" && title != "" {
      content := "Title: " + title;
    }
  }

  /** The title-only reassignment writes back the value the appends already built. */
  lemma OverrideRedundant(title: string, description: string)
    ensures description == "" && title != "" ==> Appended(title, description) == "Title: " + title
    ensures Appended(title, description) == Content(title, description)
  {
  }

  /** The description line opens the block exactly when there is a description,
      and a present title ends the block. */
  lemma ContentHoldsFields(title: string, description: string)
    ensures StartsWith(Content(title, description), "Description: ") <==> description != ""
    ensures description != "" ==> StartsWith(Content(title, description), "Description: " + description + "\n")
    ensures title != "" ==> EndsWith(Content(title, description), "Title: " + title)
  {
    var c := Content(title, description);
    if description == "" && title != "" {
      assert c[0] == 'T';
    }
    if description != "" {
      assert c[..|"Description: " + description + "\n"|] == "Description: " + description + "\n";
    }
    if title != "" {
      assert c[|c| - |"Title: " + title|..] == "Title: " + title;
    }
  }

  /** What survives `strip()` of a non-empty block: the first field's heading
      always, and the rest right-trimmed. */
  lemma StrippedContent(title: string, description: string)
    ensures description != "" ==>
      Strip(Content(title, description))
      == "Description:" + TrimEnd(Content(title, description)[|"Description:"|..])
    ensures description == "" && title != "" ==>
      Strip(Content(title, description)) == "Title:" + TrimEnd(" " + title)
  {
    var c := Content(title, description);
    if description != "" {
      assert c == "Description:" + c[|"Description:"|..];
      StripAfterHeading("Description:", c[|"Description:"|..]);
    } else if title != "" {
      assert c == "Title:" + (" " + title);
      StripAfterHeading("Title:", " " + title);
    }
  }

  /** A whitespace-only title with no description is not caught by the gate;
      the model is sent a bare `Title:` line. */
  lemma BlankTitleReachesPrompt(title: string)
    requires title != "" && AllSpace(title)
    ensures Prepare(true, title, "") == Send(Head + "Title:" + Cue)
  {
    StrippedContent(title, "");
    assert AllSpace(" " + title) by {
      forall i | 0 <= i < |" " + title| ensures IsSpace((" " + title)[i]) {
        if i > 0 { assert (" " + title)[i] == title[i - 1]; }
      }
    }
    KeptByRstripIs(" " + title, 0);
  }

  /** Likewise a whitespace-only description with no title: the model is sent
      a bare `Description:` line. */
  lemma BlankDescriptionReachesPrompt(description: string)
    requires description != "" && AllSpace(description)
    ensures Prepare(true, "", description) == Send(Head + "Description:" + Cue)
  {
    StrippedContent("", description);
    var c := Content("", description);
    var tail := " " + description + "\n";
    assert c[|"Description:"|..] == tail;
    assert AllSpace(tail) by {
      forall i | 0 <= i < |tail| ensures IsSpace(tail[i]) {
        if 0 < i < |tail| - 1 { assert tail[i] == description[i - 1]; }
      }
    }
    KeptByRstripIs(tail, 0);
  }

  // ----- prompt -----

  const Instruction: string :=
    "You are a sentiment analysis assistant. "
    + "Analyze the sentiment of the provided news item (title and/or description). "
    + "Classify it as 'positive', 'negative', or 'neutral'. "
    + "Respond with ONLY one of these three words, without any additional explanation or punctuation.\n\n"

  const ContentHeading: string := "News Content:\n"

  const Cue: string := "\n\nSentiment:"

  /** The fixed text before the content block. */
  const Head: string := Instruction + ContentHeading

  /** The single prompt sent to the model: the fixed head, the stripped
      block, then the cue. */
  function Prompt(content: string): (p: string)
    ensures StartsWith(p, Head) && EndsWith(p, Cue)
    ensures |p| == |Head| + |Strip(content)| + |Cue|
  {
    Head + Strip(content) + Cue
  }

  /** The cue ends in `Sentiment:`, so every prompt does. */
  lemma PromptEndsWithSentiment(content: string)
    ensures EndsWith(Prompt(content), "Sentiment:")
  {
    assert EndsWith(Cue, "Sentiment:") by {
      assert Cue == "\n\n" + "Sentiment:";
    }
    EndsWithTrans(Prompt(content), Cue, "Sentiment:");
  }

  /** Reads the content block back out of a prompt, if it has the prompt's shape. */
  function ParsePrompt(p: string): Option<string> {
    if |Head| + |Cue| <= |p| && StartsWith(p, Head) && EndsWith(p, Cue)
    then Some(p[|Head|..|p| - |Cue|])
    else None
  }

  /** The prompt holds exactly the stripped block, between the fixed head and the cue. */
  lemma PromptRoundTrip(content: string)
    ensures ParsePrompt(Prompt(content)) == Some(Strip(content))
  {
    var p := Prompt(content);
    assert p == Head + Strip(content) + Cue;
    assert p[|Head|..|p| - |Cue|] == Strip(content);
  }

  /** A string the parser accepts is the head, the middle it returns, and the cue. */
  lemma ParsePromptShape(p: string, m: string)
    requires ParsePrompt(p) == Some(m)
    ensures p == Head + m + Cue
  {
    Reassemble(p, Head, Cue);
  }

  /** A string the parser accepts, with a trimmed middle, is the prompt of that middle. */
  lemma ParsePromptSound(p: string, m: string)
    requires ParsePrompt(p) == Some(m) && Trimmed(m)
    ensures Prompt(m) == p
  {
    ParsePromptShape(p, m);
    StripTrimmed(m);
  }

  /** Two blocks give the same prompt exactly when they strip to the same text. */
  lemma PromptInjective(c1: string, c2: string)
    ensures Prompt(c1) == Prompt(c2) <==> Strip(c1) == Strip(c2)
  {
    PromptRoundTrip(c1);
    PromptRoundTrip(c2);
  }

  // ----- the gate and the call -----

  /** What the function does before any remote call: return at once, or send a prompt. */
  datatype Step = Return(result: Sentiment) | Send(prompt: string)

  function Prepare(configured: bool, title: string, description: string): (step: Step)
    ensures !configured ==> step == Return(Error)
    ensures configured && title == "" && description == "" ==> step == Return(Neutral)
    ensures step.Send? <==> configured && (title != "" || description != "")
    ensures step.Send? ==> ParsePrompt(step.prompt) == Some(Strip(Content(title, description)))
  {
    if !configured then Return(Error)
    else if title == "" && description == "" then Return(Neutral)
    else
      PromptRoundTrip(Content(title, description));
      Send(Prompt(Content(title, description)))
  }

  // ----- the reply -----

  /** `strip()` then `lower()`, as applied to the reply text: trimmed, no
      longer than the reply, and empty exactly when the reply is all whitespace. */
  function Normalize(text: string): (r: string)
    ensures Trimmed(r) && |r| <= |text|
    ensures r == "" <==> AllSpace(text)
  {
    StripEmptyIff(text);
    LowerKeepsSpace(Strip(text));
    Lower(Strip(text))
  }

  /** The normalised reply, or the empty string when the text could not be
      read; empty exactly for an unreadable or all-whitespace reply. */
  function SentimentText(outcome: RemoteOutcome): (r: string)
    requires !outcome.Raised?
    ensures r == "" <==> outcome.TextUnavailable? || AllSpace(outcome.text)
  {
    match outcome
    case TextUnavailable(_) => ""
    case Reply(text, _) => Normalize(text)
  }

  /** The exact-label comparisons; anything else is unrecognised. */
  function ParseLabel(text: string): (s: Option<Sentiment>)
    ensures s.Some? ==> s.value != Error && Label(s.value) == text
    ensures s.None? ==> forall v :: v != Error ==> Label(v) != text
  {
    if text == "positive" then Some(Positive)
    else if text == "negative" then Some(Negative)
    else if text == "neutral" then Some(Neutral)
    else None
  }

  /** The value returned once the remote call has raised or returned. */
  function Classify(outcome: RemoteOutcome): (r: Sentiment)
    ensures r == Error <==> outcome.Raised?
    ensures r == Positive <==> outcome.Reply? && Normalize(outcome.text) == "positive"
    ensures r == Negative <==> outcome.Reply? && Normalize(outcome.text) == "negative"
  {
    if outcome.Raised? then Error
    else
      var text := SentimentText(outcome);
      if text == "" then Neutral
      else match ParseLabel(text)
        case Some(s) => s
        case None => Neutral
  }

  /** The whole of `analyze_news_sentiment`. */
  function Analyze(configured: bool, title: string, description: string, remote: string -> RemoteOutcome): (r: Sentiment)
    ensures !configured ==> r == Error
    ensures configured && title == "" && description == "" ==> r == Neutral
    ensures r == Error <==>
      (!configured || ((title != "" || description != "") && remote(Prompt(Content(title, description))).Raised?))
  {
    match Prepare(configured, title, description)
    case Return(s) => s
    case Send(p) => Classify(remote(p))
  }

  /** The source's sequence of steps, with the block built in place. */
  method AnalyzeNewsSentiment(configured: bool, title: string, description: string, remote: string -> RemoteOutcome)
    returns (r: Sentiment)
    ensures r == Analyze(configured, title, description, remote)
  {
    if !configured {
      return Error;
    }
    if title == "" && description == "" {
      return Neutral;
    }
    var content := BuildContent(title, description);
    var fullPrompt := Prompt(content);
    r := Classify(remote(fullPrompt));
  }

  // ----- properties -----

  /** Not configured: `error`, whatever the fields and whatever the remote would do. */
  lemma NotConfiguredIgnoresRemote(title: string, description: string, remote1: string -> RemoteOutcome, remote2: string -> RemoteOutcome)
    ensures Analyze(false, title, description, remote1) == Error
    ensures Analyze(false, title, description, remote1) == Analyze(false, title, description, remote2)
  {
  }

  /** Both fields empty: `neutral`, and the remote is never consulted. */
  lemma EmptyInputIgnoresRemote(remote1: string -> RemoteOutcome, remote2: string -> RemoteOutcome)
    ensures Analyze(true, "", "", remote1) == Neutral
    ensures Analyze(true, "", "", remote1) == Analyze(true, "", "", remote2)
  {
  }

  /** Any non-empty field, even whitespace only, sends the prompt of its block. */
  lemma NonEmptyInputSendsPrompt(title: string, description: string, remote: string -> RemoteOutcome)
    requires title != "" || description != ""
    ensures Analyze(true, title, description, remote) == Classify(remote(Prompt(Content(title, description))))
  {
  }

  /** An empty or all-whitespace reply, or an unreadable one, gives `neutral`
      whatever its feedback says. */
  lemma EmptyReplyIsNeutral(outcome: RemoteOutcome)
    requires outcome.TextUnavailable? || (outcome.Reply? && AllSpace(outcome.text))
    ensures Classify(outcome) == Neutral
  {
    if outcome.Reply? {
      StripEmptyIff(outcome.text);
    }
  }

  /** Feedback metadata never changes the result. */
  lemma FeedbackIgnored(text: string, f1: Feedback, f2: Feedback)
    ensures Classify(Reply(text, f1)) == Classify(Reply(text, f2))
    ensures Classify(TextUnavailable(f1)) == Classify(TextUnavailable(f2)) == Neutral
  {
  }

  /** A reply that normalises to a label gives that label. */
  lemma ExactLabel(text: string, feedback: Feedback, s: Sentiment)
    requires s != Error && Normalize(text) == Label(s)
    ensures Classify(Reply(text, feedback)) == s
  {
  }

  /** Every label is already in normal form. */
  lemma LabelIsNormalForm(s: Sentiment)
    ensures Normalize(Label(s)) == Label(s)
  {
    var l := Label(s);
    StripTrimmed(l);
    assert forall i :: 0 <= i < |l| ==> Lower(l)[i] == l[i];
  }

  /** A reply that is exactly one of the three words the prompt asks for
      gives that value. */
  lemma LabelReplyRecognised(s: Sentiment, feedback: Feedback)
    requires s != Error
    ensures Classify(Reply(Label(s), feedback)) == s
  {
    LabelIsNormalForm(s);
    ExactLabel(Label(s), feedback, s);
  }

  /** A non-empty reply that is not exactly a label gives `neutral`: no
      substring recovery. */
  lemma UnknownReplyIsNeutral(text: string, feedback: Feedback)
    requires forall s :: s != Error ==> Label(s) != Normalize(text)
    ensures Classify(Reply(text, feedback)) == Neutral
  {
  }

  /** The result depends on the reply text only through its normal form. */
  lemma ClassifyByNormalForm(x: string, y: string, feedback: Feedback)
    requires Normalize(x) == Normalize(y)
    ensures Classify(Reply(x, feedback)) == Classify(Reply(y, feedback))
  {
  }

  /** Surrounding whitespace of the reply does not matter. */
  lemma ClassifyIgnoresPadding(a: string, text: string, b: string, feedback: Feedback)
    requires AllSpace(a) && AllSpace(b)
    ensures Classify(Reply(a + text + b, feedback)) == Classify(Reply(text, feedback))
  {
    StripIgnoresPadding(a, text, b);
    ClassifyByNormalForm(a + text + b, text, feedback);
  }

  /** Letter case of the reply does not matter. */
  lemma ClassifyIgnoresCase(text: string, feedback: Feedback)
    ensures Classify(Reply(Lower(text), feedback)) == Classify(Reply(text, feedback))
  {
    StripLowerCommute(text);
    LowerIdempotent(Strip(text));
    ClassifyByNormalForm(Lower(text), text, feedback);
  }

  /** `"Positive "` is recognised as `positive`. */
  lemma MixedCaseWithSpace(feedback: Feedback)
    ensures Classify(Reply("Positive ", feedback)) == Positive
  {
    StripPadded("", "Positive", " ");
    assert "" + "Positive" + " " == "Positive ";
    assert Lower("Positive") == "positive";
  }

  /** A reply whose normal form is longer than every label is not a label. */
  lemma NotALabelByLength(text: string, feedback: Feedback)
    requires |Normalize(text)| > 8
    ensures Classify(Reply(text, feedback)) == Neutral
  {
    assert forall s :: s != Error ==> Label(s) != Normalize(text);
    UnknownReplyIsNeutral(text, feedback);
  }

  /** Normalising a reply with no surrounding whitespace keeps its length. */
  lemma NormalizeTrimmedLength(text: string)
    requires Trimmed(text)
    ensures |Normalize(text)| == |text|
  {
    StripTrimmed(text);
  }

  /** A reply that qualifies a label is not recovered: `neutral`. */
  lemma QualifiedLabelNotRecovered(feedback: Feedback)
    ensures Classify(Reply("very negative", feedback)) == Neutral
  {
    NormalizeTrimmedLength("very negative");
    NotALabelByLength("very negative", feedback);
  }

  /** A sentence that contains a label is not recovered either: `neutral`. */
  lemma LabelInSentenceNotRecovered(feedback: Feedback)
    ensures Classify(Reply("I think this is negative overall", feedback)) == Neutral
  {
    NormalizeTrimmedLength("I think this is negative overall");
    NotALabelByLength("I think this is negative overall", feedback);
  }

  /** The result is `error` only when not configured or when the call raised;
      a configured call that did not raise gives a label. */
  lemma ErrorOnlyFromConfigOrRaise(configured: bool, title: string, description: string, remote: string -> RemoteOutcome)
    requires configured
    requires (title == "" && description == "") || !remote(Prompt(Content(title, description))).Raised?
    ensures Analyze(configured, title, description, remote) in {Positive, Negative, Neutral}
  {
  }
}
