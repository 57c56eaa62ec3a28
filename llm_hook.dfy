/** ctxflow/claude/hooks/utils/llm/oai.py and anth.py: two copies of one
    script that differ only in the provider they call. It asks a model for a
    short completion message or answers a prompt given on the command line.
    The provider's SDK is an oracle from the key and the prompt to a reply or
    a raised exception. */
module LlmHook {
  import opened Wrappers
  import opened Text

  datatype Provider = OpenAI | Anthropic

  /** What the SDK call in `prompt_llm`'s `try` block does: raise, or
      return the reply's text before `.strip()`. */
  datatype SdkOutcome = Raised | Replied(text: string)

  function KeyVar(p: Provider): string
  {
    match p
    case OpenAI => "OPENAI_API_KEY"
    case Anthropic => "ANTHROPIC_API_KEY"
  }

  function ApiErrorText(p: Provider): string
  {
    match p
    case OpenAI => "Error calling OpenAI API"
    case Anthropic => "Error calling Anthropic API"
  }

  function UsageText(p: Provider): (r: string)
    ensures r != ""
  {
    match p
    case OpenAI => "Usage: ./oai.py 'your prompt here' or ./oai.py --completion"
    case Anthropic => "Usage: ./anth.py 'your prompt here' or ./anth.py --completion"
  }

  const CompletionErrorText: string := "Error generating completion message"

  /** `os.getenv(key)` as a string, `""` when unset (the default the script
      passes for `ENGINEER_NAME`; and for a key, unset and empty are both
      falsy). */
  function GetEnv(env: map<string, string>, key: string): string
  {
    if key in env then env[key] else ""
  }

  /** `prompt_llm`: `None` without a key or when the call raises; otherwise
      the reply, stripped. */
  function PromptLlm(p: Provider, env: map<string, string>, sdk: (string, string) -> SdkOutcome, prompt: string)
    : (r: Option<string>)
    ensures r.None? <==> GetEnv(env, KeyVar(p)) == "" || sdk(GetEnv(env, KeyVar(p)), prompt).Raised?
    ensures r.Some? ==> r.value == Strip(sdk(GetEnv(env, KeyVar(p)), prompt).text, Whitespace)
  {
    var key := GetEnv(env, KeyVar(p));
    if key == "" then None
    else match sdk(key, prompt)
      case Raised => None
      case Replied(text) => Some(Strip(text, Whitespace))
  }

  /** The sentence asking for the engineer's name, or nothing without a name. */
  function NameInstruction(name: string): string
  {
    if name == "" then ""
    else "Sometimes (about 30% of the time) include the engineer's name '" + name + "' in a natural way."
  }

  const StandardExamples: string :=
    "Examples of the style: \"Work complete!\", \"All done!\", \"Task finished!\", \"Ready for your next move!\" "

  /** The examples block: personalised ones as well when there is a name. */
  function Examples(name: string): string
  {
    if name == "" then StandardExamples
    else
      "Examples of the style:\n- Standard: \"Work complete!\", \"All done!\", \"Task finished!\", \"Ready for your next move!\"\n"
      + "- Personalized: \"" + name + ", all set!\", \"Ready for you, " + name + "!\", \"Complete, " + name
      + "!\", \"" + name + ", we're done!\" "
  }

  const PromptHead: string :=
    "Generate a short, friendly completion message for when an AI coding assistant finishes a task.\n\n"
    + "Requirements:\n- Keep it under 10 words\n- Make it positive and future focused\n"
    + "- Use natural, conversational language\n- Focus on completion/readiness\n"
    + "- Do NOT include quotes, formatting, or explanations\n- Return ONLY the completion message text\n"

  const PromptTail: string := "\n\nGenerate ONE completion message:"

  /** The prompt `generate_completion_message` sends, for the value of
      `ENGINEER_NAME` before stripping. */
  function CompletionPrompt(engineerName: string): string
  {
    var name := Strip(engineerName, Whitespace);
    PromptHead + NameInstruction(name) + ("\n\n" + Examples(name) + PromptTail)
  }

  /** The name instruction and the personalised examples are in the prompt
      when the stripped name is not empty. */
  lemma NamePersonalisesPrompt(engineerName: string)
    requires Strip(engineerName, Whitespace) != ""
    ensures var name := Strip(engineerName, Whitespace);
      Contains(CompletionPrompt(engineerName), NameInstruction(name))
      && Contains(CompletionPrompt(engineerName), Examples(name))
  {
    var name := Strip(engineerName, Whitespace);
    var ni, ex := NameInstruction(name), Examples(name);
    var rest := "\n\n" + ex + PromptTail;
    InfixContains(PromptHead, ni, rest);
    InfixContains("\n\n", ex, PromptTail);
    ContainsInSuffix(PromptHead + ni, rest, ex);
  }

  /** Without a name (unset, empty or only whitespace) the prompt is the
      fixed generic one: no name instruction and only the standard examples. */
  lemma NoNameGenericPrompt(engineerName: string)
    requires Strip(engineerName, Whitespace) == ""
    ensures CompletionPrompt(engineerName) == PromptHead + ("\n\n" + StandardExamples + PromptTail)
  {
    var name := Strip(engineerName, Whitespace);
    assert NameInstruction(name) == "";
    assert PromptHead + NameInstruction(name) == PromptHead;
  }

  /** The four strips of the clean-up: whitespace, `"`, `'`, whitespace. */
  function Unquote(reply: string): string
  {
    Strip(Strip(Strip(Strip(reply, Whitespace), {'"'}), {'\''}), Whitespace)
  }

  /** The clean-up of a truthy reply: strip whitespace, then `"`, then `'`,
      then whitespace, and only then keep the first line, stripped. The result
      holds no newline and neither starts nor ends with whitespace. */
  function CleanReply(reply: string): (r: string)
    ensures '\n' !in r
    ensures r == "" || (r[0] !in Whitespace && r[|r| - 1] !in Whitespace)
  {
    var unquoted := Unquote(reply);
    var first := Split(unquoted, "\n")[0];
    SplitPiecesFree(unquoted, '\n');
    StripKeepsOut(first, Whitespace, '\n');
    Strip(first, Whitespace)
  }

  /** Quotes are removed before the first line is cut: a reply whose first
      line is only an opening quote still yields the text of its second line,
      where a cut first would have left a bare quote. */
  lemma QuotesBeforeFirstLine(x: string)
    requires x != "" && '\n' !in x
    requires x[0] !in Whitespace && x[|x| - 1] !in Whitespace
    requires x[0] != '"' && x[|x| - 1] != '"' && x[0] != '\'' && x[|x| - 1] != '\''
    ensures CleanReply("\"\n" + x + "\"") == x
    ensures Split("\"\n" + x + "\"", "\n")[0] == "\""
  {
    QuotedSecondLineUnquoted(x);
    SplitWithout(x, '\n');
    KeepsLine(x);
    FirstLineIsQuote(x);
  }

  lemma KeepsLine(x: string)
    requires x != "" && x[0] !in Whitespace && x[|x| - 1] !in Whitespace
    ensures Strip(x, Whitespace) == x
  {
    assert x == "" + x + "";
    StripAround("", x, "", Whitespace);
  }

  /** Cutting the first line before removing quotes would keep only `"`. */
  lemma FirstLineIsQuote(x: string)
    ensures Split("\"\n" + x + "\"", "\n")[0] == "\""
  {
    var t := "\n" + x + "\"";
    assert "\"\n" + x + "\"" == "\"" + t;
    SplitAfterWord("\"", t, '\n');
    assert t[..1] == "\n";
  }

  /** The four strips of the clean-up turn `"`, newline, text, `"` into the text. */
  lemma QuotedSecondLineUnquoted(x: string)
    requires x != ""
    requires x[0] !in Whitespace && x[|x| - 1] !in Whitespace
    requires x[|x| - 1] != '"' && x[|x| - 1] != '\''
    ensures Unquote("\"\n" + x + "\"") == x
  {
    KeepsQuotedLine(x);
    DropsQuotes(x);
    KeepsNewlineLine(x);
    DropsNewline(x);
  }

  lemma KeepsQuotedLine(x: string)
    ensures Strip("\"\n" + x + "\"", Whitespace) == "\"\n" + x + "\""
  {
    var s := "\"\n" + x + "\"";
    assert s == "" + s + "" && s[0] == '"' && s[|s| - 1] == '"';
    StripAround("", s, "", Whitespace);
  }

  lemma DropsQuotes(x: string)
    requires x != "" && x[|x| - 1] != '"'
    ensures Strip("\"\n" + x + "\"", {'"'}) == "\n" + x
  {
    var a := "\n" + x;
    assert "\"\n" + x + "\"" == "\"" + a + "\"" && a[0] == '\n' && a[|a| - 1] == x[|x| - 1];
    StripAround("\"", a, "\"", {'"'});
  }

  lemma KeepsNewlineLine(x: string)
    requires x != "" && x[|x| - 1] != '\''
    ensures Strip("\n" + x, {'\''}) == "\n" + x
  {
    var a := "\n" + x;
    assert a == "" + a + "" && a[0] == '\n' && a[|a| - 1] == x[|x| - 1];
    StripAround("", a, "", {'\''});
  }

  lemma DropsNewline(x: string)
    requires x != "" && x[0] !in Whitespace && x[|x| - 1] !in Whitespace
    ensures Strip("\n" + x, Whitespace) == x
  {
    assert "\n" + x == "\n" + x + "";
    StripAround("\n", x, "", Whitespace);
  }

  /** The `if response:` block of `generate_completion_message`: a falsy
      reply (`None` or `""`) comes back as it is; any other is cleaned, and
      then is a single line without surrounding whitespace. */
  function FinishReply(reply: Option<string>): (r: Option<string>)
    ensures reply.None? || reply.value == "" ==> r == reply
    ensures reply.Some? && reply.value != "" ==> r == Some(CleanReply(reply.value))
    ensures r.Some? && r.value != "" ==>
      '\n' !in r.value && r.value[0] !in Whitespace && r.value[|r.value| - 1] !in Whitespace
  {
    if reply.Some? && reply.value != "" then Some(CleanReply(reply.value)) else reply
  }

  /** `generate_completion_message`: asks for a message with the completion
      prompt; there is none exactly when the key is unset or the call raises. */
  function GenerateCompletionMessage(p: Provider, env: map<string, string>, sdk: (string, string) -> SdkOutcome)
    : (r: Option<string>)
    ensures var prompt := CompletionPrompt(GetEnv(env, "ENGINEER_NAME"));
      r.None? <==> GetEnv(env, KeyVar(p)) == "" || sdk(GetEnv(env, KeyVar(p)), prompt).Raised?
  {
    FinishReply(PromptLlm(p, env, sdk, CompletionPrompt(GetEnv(env, "ENGINEER_NAME"))))
  }

  /** `main`: the line printed for the arguments after the script name. */
  function MainOutput(p: Provider, args: seq<string>, env: map<string, string>, sdk: (string, string) -> SdkOutcome)
    : (out: string)
    ensures out != ""
  {
    if |args| > 0 then
      if args[0] == "--completion" then CompletionOutput(GenerateCompletionMessage(p, env, sdk))
      else PromptOutput(p, PromptLlm(p, env, sdk, Join(args, " ")))
    else UsageText(p)
  }

  /** What `main` prints for a completion message. */
  function CompletionOutput(message: Option<string>): (r: string)
    ensures r != ""
  {
    if message.Some? && message.value != "" then message.value else CompletionErrorText
  }

  /** What `main` prints for the reply to a prompt. */
  function PromptOutput(p: Provider, response: Option<string>): (r: string)
    ensures r != ""
  {
    if response.Some? && response.value != "" then response.value else ApiErrorText(p)
  }

  /** A completion message, when there is one, is a single line without
      surrounding whitespace. */
  lemma CompletionMessageOneLine(p: Provider, env: map<string, string>, sdk: (string, string) -> SdkOutcome)
    ensures var m := GenerateCompletionMessage(p, env, sdk);
      m.Some? && m.value != "" ==> '\n' !in m.value && m.value[0] !in Whitespace && m.value[|m.value| - 1] !in Whitespace
  {
    var reply := PromptLlm(p, env, sdk, CompletionPrompt(GetEnv(env, "ENGINEER_NAME")));
    assert GenerateCompletionMessage(p, env, sdk) == FinishReply(reply);
  }

  /** Without arguments the usage line is printed. */
  lemma MainUsage(p: Provider, env: map<string, string>, sdk: (string, string) -> SdkOutcome)
    ensures MainOutput(p, [], env, sdk) == UsageText(p)
  {
  }

  /** `--completion` prints the message when there is a non-empty one, and
      the error text otherwise. */
  lemma MainCompletion(p: Provider, args: seq<string>, env: map<string, string>, sdk: (string, string) -> SdkOutcome)
    requires args != [] && args[0] == "--completion"
    ensures var m := GenerateCompletionMessage(p, env, sdk);
      MainOutput(p, args, env, sdk) == if m.Some? && m.value != "" then m.value else CompletionErrorText
  {
    assert MainOutput(p, args, env, sdk) == CompletionOutput(GenerateCompletionMessage(p, env, sdk));
  }

  /** Any other arguments are joined by spaces and sent as the prompt; the
      reply is printed, or the API error text when there is none. */
  lemma MainPrompt(p: Provider, args: seq<string>, env: map<string, string>, sdk: (string, string) -> SdkOutcome)
    requires args != [] && args[0] != "--completion"
    ensures var reply := PromptLlm(p, env, sdk, Join(args, " "));
      MainOutput(p, args, env, sdk) == if reply.Some? && reply.value != "" then reply.value else ApiErrorText(p)
  {
    assert MainOutput(p, args, env, sdk) == PromptOutput(p, PromptLlm(p, env, sdk, Join(args, " ")));
  }

  /** Whatever is printed for a `--completion` request is one non-empty line
      that does not start with whitespace. */
  lemma CompletionOutputIsOneLine(p: Provider, args: seq<string>, env: map<string, string>,
                                  sdk: (string, string) -> SdkOutcome)
    requires args != [] && args[0] == "--completion"
    ensures '\n' !in MainOutput(p, args, env, sdk)
    ensures MainOutput(p, args, env, sdk) != "" && MainOutput(p, args, env, sdk)[0] !in Whitespace
  {
    var m := GenerateCompletionMessage(p, env, sdk);
    assert MainOutput(p, args, env, sdk) == CompletionOutput(m);
    CompletionMessageOneLine(p, env, sdk);
    PrintedMessage(m);
  }

  /** The completion output of a one-line message is one line. */
  lemma PrintedMessage(m: Option<string>)
    requires m.Some? && m.value != "" ==> '\n' !in m.value && m.value[0] !in Whitespace
    ensures '\n' !in CompletionOutput(m) && CompletionOutput(m)[0] !in Whitespace
  {
    ErrorTextOneLine();
  }

  lemma ErrorTextOneLine()
    ensures '\n' !in CompletionErrorText && CompletionErrorText[0] == 'E'
  {
  }

  /** The Anthropic copy reads its own key: without `ANTHROPIC_API_KEY` no
      call is made and the prompt gets no answer; with it, the reply is the
      stripped text or, when the call raises, none. */
  lemma AnthropicPromptLlm(env: map<string, string>, sdk: (string, string) -> SdkOutcome, prompt: string)
    ensures GetEnv(env, "ANTHROPIC_API_KEY") == "" ==> PromptLlm(Anthropic, env, sdk, prompt) == None
    ensures GetEnv(env, "ANTHROPIC_API_KEY") != "" ==>
      PromptLlm(Anthropic, env, sdk, prompt)
        == match sdk(GetEnv(env, "ANTHROPIC_API_KEY"), prompt)
           case Raised => None
           case Replied(t) => Some(Strip(t, Whitespace))
  {
  }

  /** The two copies give the same completion message when their SDKs answer
      the same prompt alike and their keys are both set or both unset. */
  lemma ProvidersAgreeOnCompletion(env: map<string, string>, openai: (string, string) -> SdkOutcome,
                                   anthropic: (string, string) -> SdkOutcome)
    requires (GetEnv(env, "OPENAI_API_KEY") == "") == (GetEnv(env, "ANTHROPIC_API_KEY") == "")
    requires var prompt := CompletionPrompt(GetEnv(env, "ENGINEER_NAME"));
      openai(GetEnv(env, "OPENAI_API_KEY"), prompt) == anthropic(GetEnv(env, "ANTHROPIC_API_KEY"), prompt)
    ensures GenerateCompletionMessage(OpenAI, env, openai) == GenerateCompletionMessage(Anthropic, env, anthropic)
  {
  }

  /** The Anthropic `main` prints the usage text naming `anth.py` without
      arguments, and its own error text when a prompt gets no answer. */
  lemma AnthropicMain(args: seq<string>, env: map<string, string>, sdk: (string, string) -> SdkOutcome)
    ensures args == [] ==> MainOutput(Anthropic, args, env, sdk) == "Usage: ./anth.py 'your prompt here' or ./anth.py --completion"
    ensures args != [] && args[0] != "--completion" && GetEnv(env, "ANTHROPIC_API_KEY") == "" ==>
      MainOutput(Anthropic, args, env, sdk) == "Error calling Anthropic API"
  {
  }
}
