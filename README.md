# News sentiment classifier, modelled in Dafny

`analyze_news_sentiment` (sentiment_analyzer.py) takes a news item's title and
description, asks the Gemini text model for a one-word sentiment, and returns
one of four values: `positive`, `negative`, `neutral` or `error`. It runs in
three stages, and this project models each one.

1. **Gate.** If the Gemini client was not configured, the result is `error`.
   If the title and the description are both the empty string, the result is
   `neutral`.
2. **Prompt.** The code builds a content block step by step: a
   `Description: …` line, then a `Title: …` line, then a title-only
   reassignment. It wraps the stripped block in a fixed instruction text and
   ends it with a `Sentiment:` cue.
3. **Reply.** The reply text is passed through `strip()` and then `lower()`.
   An empty or unreadable reply gives `neutral`. An exact label gives itself.
   Any other text gives `neutral`. An exception anywhere in the call gives
   `error`.

The model has two files.

- `py_string.dfy` (module `PyString`) covers Python's `str.isspace`,
  `strip()` and `lower()`. Strip is characterised by its two whitespace runs.
  The lemmas show that strip removes exactly the padding, is idempotent, and
  commutes with lower.
- `sentiment_analyzer.dfy` (module `SentimentAnalyzer`) covers the function
  itself:
  - `BuildContent` is an imperative method, as in the source. It is proved equal
    to the case table `Content`.
  - `ParsePrompt` reads the stripped block back out of a prompt.
  - `Prepare` covers everything before the remote call.
  - `Classify` covers everything after it.
  - `Analyze` and `AnalyzeNewsSentiment` compose the stages.

The remote model is a parameter, `remote: string -> RemoteOutcome`. It maps
the prompt to one of three outcomes: `Raised`, `TextUnavailable` (the SDK's
`ValueError` on `response.text`) or `Reply(text)`. `TextUnavailable` and
`Reply` carry the safety `Feedback`; `Raised` carries nothing. Because the remote is a parameter, "no call is
made" can be stated as "the result does not depend on `remote`".

Two behaviours of the code are worth stating plainly:
- The early `neutral` return tests only for exactly empty strings
  (sentiment_analyzer.py:61). A whitespace-only title or description passes
  the gate and reaches the model as a bare `Title:` or `Description:` line
  (`BlankTitleReachesPrompt`, `BlankDescriptionReachesPrompt`).
- An unrecognised reply gives `neutral` with no attempt to find a label
  inside it (sentiment_analyzer.py:124-126), so
  `"I think this is negative overall"` gives `neutral`
  (`LabelInSentenceNotRecovered`).

## Model

| member | source | states |
|---|---|---|
| `PyString.IsSpace` | sentiment_analyzer.py:79 | the whitespace set `strip()` removes; no ASCII letter or digit is in it |
| `PyString.LowerChar` | sentiment_analyzer.py:98 | an upper-case ASCII letter becomes its lower-case form (code point plus 32); every other character is unchanged |
| `PyString.Lower` | sentiment_analyzer.py:98 | `lower()` keeps the length, leaves no upper-case ASCII letter, lowers each upper-case one and keeps every other character |
| `PyString.LeadingSpace` | sentiment_analyzer.py:79 | the count `lstrip()` removes: every character before it is whitespace and the one at it is not |
| `PyString.KeptByRstrip` | sentiment_analyzer.py:79 | the count `rstrip()` keeps: every character from it on is whitespace and the one before it is not |
| `PyString.Strip` | sentiment_analyzer.py:79 | `strip()` returns text with no whitespace at either end, never longer than its input |
| `PyString.StripPadded` | sentiment_analyzer.py:98 | stripping a trimmed core padded with whitespace on both sides returns exactly that core |
| `PyString.StripDecompose` | sentiment_analyzer.py:98 | every string is its stripped form with all-whitespace text before and after it |
| `PyString.StripIdempotent` | sentiment_analyzer.py:79 | stripping twice gives the same as stripping once |
| `PyString.StripIgnoresPadding` | sentiment_analyzer.py:98 | extra whitespace around a string does not change its stripped form |
| `PyString.StripEmptyIff` | sentiment_analyzer.py:98-102 | strip gives the empty string exactly when the input is all whitespace |
| `PyString.StripAfterHeading` | sentiment_analyzer.py:79 | a text that starts with a trimmed heading keeps the heading whole under strip; only the tail is right-trimmed |
| `PyString.LowerKeepsSpace` | sentiment_analyzer.py:98 | lowering never turns whitespace into non-whitespace or the reverse, so trimmed stays trimmed |
| `PyString.LowerIdempotent` | sentiment_analyzer.py:98 | lowering twice gives the same as lowering once |
| `PyString.StripLowerCommute` | sentiment_analyzer.py:98 | strip then lower equals lower then strip |
| `SentimentAnalyzer.Label` | sentiment_analyzer.py:117-130 | each returned string is a non-empty word of at most eight lower-case ASCII letters |
| `SentimentAnalyzer.Content` | sentiment_analyzer.py:65-71 | the block, by which fields are present; it is empty exactly when the title and the description are both empty |
| `SentimentAnalyzer.BuildContent` | sentiment_analyzer.py:65-71 | the block built by the two appends and the title-only reassignment equals the case table `Content` |
| `SentimentAnalyzer.OverrideRedundant` | sentiment_analyzer.py:70-71 | the title-only reassignment writes back the string the appends had already built |
| `SentimentAnalyzer.ContentHoldsFields` | sentiment_analyzer.py:66-69 | the block starts with `Description: ` exactly when a description is present, then holds the whole description line; a present title ends the block as `Title: <title>` |
| `SentimentAnalyzer.StrippedContent` | sentiment_analyzer.py:65-79 | the stripped block keeps its first heading (`Description:` or `Title:`); only the text after it is right-trimmed |
| `SentimentAnalyzer.BlankTitleReachesPrompt` | sentiment_analyzer.py:61-79 | any non-empty whitespace-only title with no description passes the gate, and the prompt sent is the head, a bare `Title:`, then the cue |
| `SentimentAnalyzer.BlankDescriptionReachesPrompt` | sentiment_analyzer.py:61-79 | any non-empty whitespace-only description with no title passes the gate, and the prompt sent is the head, a bare `Description:`, then the cue |
| `SentimentAnalyzer.Prompt` | sentiment_analyzer.py:74-80 | the prompt starts with the fixed instruction and `News Content:` heading, ends with the cue, and its length is theirs plus the stripped block's |
| `SentimentAnalyzer.PromptEndsWithSentiment` | sentiment_analyzer.py:79 | every prompt ends with `Sentiment:` |
| `SentimentAnalyzer.PromptRoundTrip` | sentiment_analyzer.py:74-80 | reading the prompt back returns exactly the stripped block, so the block appears in the prompt as one contiguous piece |
| `SentimentAnalyzer.ParsePromptShape` | sentiment_analyzer.py:74-80 | any string the prompt reader accepts is the fixed head, the returned middle, then the cue |
| `SentimentAnalyzer.ParsePromptSound` | sentiment_analyzer.py:74-80 | any accepted string whose middle is trimmed is the prompt built from that middle |
| `SentimentAnalyzer.PromptInjective` | sentiment_analyzer.py:74-80 | two blocks give the same prompt exactly when they strip to the same text |
| `SentimentAnalyzer.Prepare` | sentiment_analyzer.py:57-80 | not configured gives `error`; configured with both fields empty gives `neutral`; otherwise a prompt is sent, and it holds the stripped block |
| `SentimentAnalyzer.Normalize` | sentiment_analyzer.py:98 | the normalised reply has no whitespace at either end, is no longer than the reply, and is empty exactly when the reply is all whitespace |
| `SentimentAnalyzer.SentimentText` | sentiment_analyzer.py:96-100 | the text tested is empty exactly when the reply could not be read or is all whitespace |
| `SentimentAnalyzer.ParseLabel` | sentiment_analyzer.py:117-126 | the result is a non-error value whose label is the text exactly, or none when no label equals the text |
| `SentimentAnalyzer.Classify` | sentiment_analyzer.py:96-130 | `error` exactly when the call raised; `positive` or `negative` exactly when the normalised reply is that word |
| `SentimentAnalyzer.Analyze` | sentiment_analyzer.py:36-130 | not configured gives `error`; both fields empty gives `neutral`; `error` arises exactly from no configuration or a raising call on the built prompt |
| `SentimentAnalyzer.AnalyzeNewsSentiment` | sentiment_analyzer.py:57-130 | running the steps in order, with the block built in place, gives the result `Analyze` specifies |
| `SentimentAnalyzer.NotConfiguredIgnoresRemote` | sentiment_analyzer.py:57-59 | when not configured the result is `error` for any fields and does not depend on the remote |
| `SentimentAnalyzer.EmptyInputIgnoresRemote` | sentiment_analyzer.py:61-63 | with both fields empty the result is `neutral` and does not depend on the remote |
| `SentimentAnalyzer.NonEmptyInputSendsPrompt` | sentiment_analyzer.py:61-93 | with any non-empty field, even whitespace only, the result is the classification of the remote's answer to the prompt of that block |
| `SentimentAnalyzer.EmptyReplyIsNeutral` | sentiment_analyzer.py:96-115 | an unreadable reply, or one made only of whitespace, gives `neutral` |
| `SentimentAnalyzer.FeedbackIgnored` | sentiment_analyzer.py:102-115 | block-reason and finish-reason feedback never changes the result, and an unreadable reply is always `neutral` |
| `SentimentAnalyzer.ExactLabel` | sentiment_analyzer.py:117-123 | a reply whose normalised form is a label gives that label |
| `SentimentAnalyzer.LabelIsNormalForm` | sentiment_analyzer.py:98-123 | every label is unchanged by strip and lower, so a reply can match it |
| `SentimentAnalyzer.LabelReplyRecognised` | sentiment_analyzer.py:117-123 | a reply that is exactly `positive`, `negative` or `neutral` gives that value |
| `SentimentAnalyzer.UnknownReplyIsNeutral` | sentiment_analyzer.py:124-126 | a reply whose normalised form is no label gives `neutral` |
| `SentimentAnalyzer.ClassifyByNormalForm` | sentiment_analyzer.py:98-126 | two replies with the same normalised form are classified alike |
| `SentimentAnalyzer.ClassifyIgnoresPadding` | sentiment_analyzer.py:98 | whitespace around a reply does not change its classification |
| `SentimentAnalyzer.ClassifyIgnoresCase` | sentiment_analyzer.py:98 | lower-casing a reply first does not change its classification |
| `SentimentAnalyzer.MixedCaseWithSpace` | sentiment_analyzer.py:98-119 | the reply `"Positive "` gives `positive` |
| `SentimentAnalyzer.NotALabelByLength` | sentiment_analyzer.py:124-126 | a reply whose normalised form is longer than every label gives `neutral` |
| `SentimentAnalyzer.QualifiedLabelNotRecovered` | sentiment_analyzer.py:124-126 | the reply `"very negative"` gives `neutral`, not `negative` |
| `SentimentAnalyzer.LabelInSentenceNotRecovered` | sentiment_analyzer.py:124-126 | the reply `"I think this is negative overall"` gives `neutral` |
| `SentimentAnalyzer.ErrorOnlyFromConfigOrRaise` | sentiment_analyzer.py:34-130 | configured, with no raising call, the result is one of `positive`, `negative`, `neutral` |

## Left out

- Loading `.env`, the hard-coded API key and `genai.configure` (sentiment_analyzer.py:9-32) are process setup. Their only effect here is the boolean `configured`.
- The Gemini SDK calls (sentiment_analyzer.py:86-93) are a foreign network call. They become the `remote` parameter, so the model name, `max_output_tokens=10` and `temperature=0.0` are not modelled.
- `remote` is a function, so it answers the same prompt the same way. A live service need not; each result here is stated for the outcome the service gave.
- The loop over `block_reason` and the candidates' `finish_reason` (sentiment_analyzer.py:103-114) only picks which warning is printed. `Feedback` is carried in the outcome but never read, and `FeedbackIgnored` states that it does not matter.
- Every `print` is logging only. The prints before the `try` (sentiment_analyzer.py:58, 62) cannot change the result. A print inside the `try` (lines 104, 111, 114, 125) that raised would lead to `error` through the `except` at lines 128-130; that case falls under the `Raised` line below.
- The parameters `image_url`, `link` and `model_name` do not affect the result and are not modelled.
- The `__main__` examples (sentiment_analyzer.py:133-190) need a live service, and their expected values are the model's judgments.
- An exception at any point inside the `try` block (lines 82-126), not only in `generate_content`, is modelled as the single outcome `Raised`.
- PyString.Lower: lowers only ASCII `A`-`Z`, not full Unicode. For the three labels this changes nothing: the only non-ASCII characters whose lower-case form contains an ASCII letter are U+212A (to `k`) and U+0130 (to `i` plus a combining dot), and neither can produce a label.
