/**
 * The dictation-correction pipeline: a two-message prompt is built around the
 * raw transcript, a language model answers with a JSON object, and that
 * object is shaped into the report shown to the physician.
 *
 * The language-model call and the JSON decoder are foreign code; they are
 * parameters of `RunPipeline`. The decoded reply is `Decoded`.
 */
module SttServices {
  import opened Wrappers
  import opened PyStr

  /** One chat message: its role and its content. */
  datatype Message = Message(role: string, content: string)

  /** The system instructions: a fixed text that no behaviour of the model depends on. */
  const SystemInstructions: string

  const UserPrefix := "Prosím oprav podle instrukcí tento text: "

  /** What `parse_output` puts between the corrected text and the bullet lines. */
  const HeaderLine := "Doporučení:"
  const Bullet := "• "

  /** What `json.loads` made of the reply, restricted to the fields the code reads. */
  datatype Decoded =
    | Undecodable
      // the reply is not JSON at all: `json.loads` raises
    | NonObject
      // JSON, but not an object: `.get` raises
    | Object(text: Option<string>, recommendations: Option<seq<string>>)
      // a missing key reads as `None`

  /** The exception `parse_output` raises, by the line that raises it. */
  datatype ParseError =
    | MalformedJson          // json.loads
    | ReplyNotAnObject       // .get on a non-dict
    | RecommendationsMissing // iterating None in the comprehension
    | TextMissing            // None + str

  /** `format_prompt`: the system message, then the transcript behind a fixed request. */
  function FormatPrompt(text: string): (prompt: seq<Message>)
    ensures |prompt| == 2
    ensures prompt[0].role == "system" && prompt[1].role == "user"
    ensures prompt[0].content == SystemInstructions
    ensures UserPrefix <= prompt[1].content && prompt[1].content[|UserPrefix|..] == text
  {
    [Message("system", SystemInstructions), Message("user", UserPrefix + text)]
  }

  /** Reads the transcript back out of a prompt; the inverse of `FormatPrompt`. */
  function TranscriptOf(prompt: seq<Message>): (r: Option<string>)
    ensures r.Some? ==> |prompt| == 2 && prompt[1].content == UserPrefix + r.value
  {
    if |prompt| == 2 && prompt[0] == Message("system", SystemInstructions)
       && prompt[1].role == "user" && UserPrefix <= prompt[1].content
    then Some(prompt[1].content[|UserPrefix|..])
    else None
  }

  lemma {:induction false} TranscriptOfPrompt(text: string)
    ensures TranscriptOf(FormatPrompt(text)) == Some(text)
  {
  }

  /** Two transcripts give the same prompt only when they are the same. */
  lemma {:induction false} FormatPromptInjective(a: string, b: string)
    ensures FormatPrompt(a) == FormatPrompt(b) <==> a == b
  {
    TranscriptOfPrompt(a);
    TranscriptOfPrompt(b);
  }

  /** `["• " + rec for rec in recs]` */
  function Bullets(recs: seq<string>): (lines: seq<string>)
    ensures |lines| == |recs|
    ensures forall k :: 0 <= k < |recs| ==> lines[k] == Bullet + recs[k]
  {
    seq(|recs|, k requires 0 <= k < |recs| => Bullet + recs[k])
  }

  /** `parse_output` after `json.loads`. */
  function ParseOutput(d: Decoded): (r: Result<Option<string>, ParseError>)
    ensures d.Undecodable? ==> r == Failure(MalformedJson)
    ensures r.Success? <==>
              d.Object? && d.recommendations.Some? && (d.recommendations.value == [] || d.text.Some?)
    ensures d.Object? && d.recommendations == Some([]) ==> r == Success(d.text)
    ensures d.Object? && d.recommendations.None? ==> r == Failure(RecommendationsMissing)
    ensures d.Object? && d.text.None? && d.recommendations.Some? && d.recommendations.value != [] ==>
              r == Failure(TextMissing)
    ensures r.Success? && d.recommendations.value != [] ==>
              r.value == Some(Join([d.text.value, HeaderLine] + Bullets(d.recommendations.value), "\n"))
  {
    match d
    case Undecodable => Failure(MalformedJson)
    case NonObject => Failure(ReplyNotAnObject)
    case Object(text, recs) =>
      if recs == Some([]) then Success(text)
      else if recs.None? then Failure(RecommendationsMissing)
      else if text.None? then Failure(TextMissing)
      else
        var block := "\n" + HeaderLine + "\n" + Join(Bullets(recs.value), "\n");
        assert Join([text.value, HeaderLine] + Bullets(recs.value), "\n") == text.value + block by {
          JoinCons2(text.value, HeaderLine, Bullets(recs.value), "\n");
        }
        Success(Some(text.value + block))
  }

  lemma {:induction false} JoinCons2(a: string, b: string, rest: seq<string>, sep: string)
    requires rest != []
    ensures Join([a, b] + rest, sep) == a + sep + (b + sep + Join(rest, sep))
  {
    assert ([a, b] + rest)[1..] == [b] + rest;
    assert ([b] + rest)[1..] == rest;
  }

  /**
   * The report splits into lines as: the lines of the corrected text, the
   * header, then one bullet line per recommendation, in the order given,
   * none dropped, merged or added (provided no recommendation itself spans
   * several lines).
   */
  lemma {:induction false} ReportLines(text: string, recs: seq<string>)
    requires recs != []
    requires forall k :: 0 <= k < |recs| ==> '\n' !in recs[k]
    ensures ParseOutput(Object(Some(text), Some(recs))).Success?
    ensures var report := ParseOutput(Object(Some(text), Some(recs))).value.value;
            Split(report, '\n') == Split(text, '\n') + [HeaderLine] + Bullets(recs)
  {
    var bullets := Bullets(recs);
    forall k | 0 <= k < |bullets| ensures '\n' !in bullets[k] {
      assert bullets[k] == Bullet + recs[k];
    }
    var tail := Join(bullets, "\n");
    var second := HeaderLine + ['\n'] + tail;
    var report := ParseOutput(Object(Some(text), Some(recs))).value.value;
    assert report == text + ['\n'] + second by {
      JoinCons2(text, HeaderLine, bullets, "\n");
    }
    calc {
      Split(report, '\n');
      { SplitAppend(text, second, '\n'); }
      Split(text, '\n') + Split(second, '\n');
      { SplitAppend(HeaderLine, tail, '\n'); }
      Split(text, '\n') + (Split(HeaderLine, '\n') + Split(tail, '\n'));
      { SplitNoSeparator(HeaderLine, '\n'); SplitJoin(bullets, '\n'); }
      Split(text, '\n') + ([HeaderLine] + bullets);
    }
  }

  /**
   * `run_pipeline`: the prompt built from the transcript is sent once to the
   * model and its reply, as decoded, is shaped once.
   */
  function RunPipeline(text: string, invokeLlm: seq<Message> -> string, loads: string -> Decoded)
    : (r: Result<Option<string>, ParseError>)
    ensures r == ParseOutput(loads(invokeLlm(FormatPrompt(text))))
  {
    var messages := FormatPrompt(text);
    var response := invokeLlm(messages);
    ParseOutput(loads(response))
  }

  /** An undecodable reply fails the pipeline; the raw transcript is never returned instead. */
  lemma {:induction false} NoFallbackToTranscript(text: string, invokeLlm: seq<Message> -> string, loads: string -> Decoded)
    requires loads(invokeLlm(FormatPrompt(text))) == Undecodable
    ensures RunPipeline(text, invokeLlm, loads) == Failure(MalformedJson)
  {
  }

  /** One recommendation: the corrected text, the header line and one bullet line. */
  lemma {:induction false} OneRecommendation(text: string, rec: string)
    ensures ParseOutput(Object(Some(text), Some([rec]))) == Success(Some(text + "\n" + HeaderLine + "\n" + Bullet + rec))
  {
    assert Bullets([rec]) == [Bullet + rec];
    JoinCons2(text, HeaderLine, [Bullet + rec], "\n");
    assert Join([Bullet + rec], "\n") == Bullet + rec;
    assert text + "\n" + (HeaderLine + "\n" + (Bullet + rec)) == text + "\n" + HeaderLine + "\n" + Bullet + rec;
  }

  /** A reply with both keys and recommendations yields the text, the header and the bullets. */
  lemma ReportWithRecommendation(invokeLlm: seq<Message> -> string, loads: string -> Decoded)
    requires loads(invokeLlm(FormatPrompt("kapky")))
             == Object(Some("Kapky."), Some(["2x denně"]))
    ensures RunPipeline("kapky", invokeLlm, loads)
            == Success(Some("Kapky.\nDoporučení:\n• 2x denně"))
  {
    OneRecommendation("Kapky.", "2x denně");
    assert "Kapky." + "\n" + HeaderLine + "\n" + Bullet + "2x denně" == "Kapky.\nDoporučení:\n• 2x denně";
  }
}
