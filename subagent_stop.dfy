/** ctxflow/claude/hooks/subagent_stop.py: the hook run when a sub-agent
    stops. It logs the hook's input, optionally copies the transcript to
    `chat.json`, and announces completion through the best available
    text-to-speech script. The environment, the file system, the JSON
    decoder and the speech subprocess are parameters. */
module SubagentStop {
  import opened Wrappers
  import opened Text

  /** The three speech scripts, in priority order. */
  datatype TtsScript = ElevenLabsTts | OpenAiTts | Pyttsx3Tts

  const Priority: seq<TtsScript> := [ElevenLabsTts, OpenAiTts, Pyttsx3Tts]

  function ScriptFile(s: TtsScript): string
  {
    match s
    case ElevenLabsTts => "elevenlabs_tts.py"
    case OpenAiTts => "openai_tts.py"
    case Pyttsx3Tts => "pyttsx3_tts.py"
  }

  /** The key a script needs, if any. */
  function KeyOf(s: TtsScript): Option<string>
  {
    match s
    case ElevenLabsTts => Some("ELEVENLABS_API_KEY")
    case OpenAiTts => Some("OPENAI_API_KEY")
    case Pyttsx3Tts => None
  }

  /** `os.getenv(key)` is truthy: the variable is present and not empty. */
  predicate EnvSet(env: map<string, string>, key: string)
  {
    key in env && env[key] != ""
  }

  /** `get_tts_script_path`: the chain of early returns. `present` is the set
      of scripts whose file exists in `utils/tts` beside the hook. */
  function TtsScriptChoice(env: map<string, string>, present: set<TtsScript>): (r: Option<TtsScript>)
    ensures EnvSet(env, "ELEVENLABS_API_KEY") && ElevenLabsTts in present ==> r == Some(ElevenLabsTts)
    ensures r == Some(OpenAiTts) <==>
      !(EnvSet(env, "ELEVENLABS_API_KEY") && ElevenLabsTts in present)
      && EnvSet(env, "OPENAI_API_KEY") && OpenAiTts in present
    ensures r == Some(Pyttsx3Tts) <==>
      !(EnvSet(env, "ELEVENLABS_API_KEY") && ElevenLabsTts in present)
      && !(EnvSet(env, "OPENAI_API_KEY") && OpenAiTts in present)
      && Pyttsx3Tts in present
    ensures r.Some? ==> r.value in present
  {
    if EnvSet(env, "ELEVENLABS_API_KEY") && ElevenLabsTts in present then Some(ElevenLabsTts)
    else if EnvSet(env, "OPENAI_API_KEY") && OpenAiTts in present then Some(OpenAiTts)
    else if Pyttsx3Tts in present then Some(Pyttsx3Tts)
    else None
  }

  /** A script can be used when its file exists and the key it needs, if
      any, is set. */
  predicate Eligible(env: map<string, string>, present: set<TtsScript>, s: TtsScript)
  {
    s in present && (KeyOf(s).None? || EnvSet(env, KeyOf(s).value))
  }

  /** The first eligible script of a priority list. */
  function FirstEligible(env: map<string, string>, present: set<TtsScript>, order: seq<TtsScript>): Option<TtsScript>
  {
    if order == [] then None
    else if Eligible(env, present, order[0]) then Some(order[0])
    else FirstEligible(env, present, order[1..])
  }

  /** The chain of early returns picks the first eligible script in the
      priority order ElevenLabs, OpenAI, pyttsx3. */
  lemma TtsChoiceIsFirstEligible(env: map<string, string>, present: set<TtsScript>)
    ensures TtsScriptChoice(env, present) == FirstEligible(env, present, Priority)
  {
    var rest1, rest2: seq<TtsScript> := [OpenAiTts, Pyttsx3Tts], [Pyttsx3Tts];
    assert Priority[1..] == rest1 && rest1[1..] == rest2 && rest2[1..] == [];
    assert FirstEligible(env, present, rest2) == if Pyttsx3Tts in present then Some(Pyttsx3Tts) else None;
    assert FirstEligible(env, present, rest1)
        == if EnvSet(env, "OPENAI_API_KEY") && OpenAiTts in present then Some(OpenAiTts)
           else FirstEligible(env, present, rest2);
  }

  /** The path `get_tts_script_path` returns: the script file in
      `utils/tts` under the hook's directory. */
  function TtsScriptPath(hookDir: string, s: TtsScript): string
  {
    hookDir + "/utils/tts/" + ScriptFile(s)
  }

  const CompletionMessage: string := "Subagent Task Complete"

  /** The command `announce_subagent_completion` runs, if any. Whatever
      happens to that command (a timeout, a missing `uv`, any other error)
      is swallowed, so only the command itself is observable. */
  function AnnounceCommand(hookDir: string, env: map<string, string>, present: set<TtsScript>): (r: Option<seq<string>>)
    ensures TtsScriptChoice(env, present).None? <==> r.None?
    ensures r.Some? ==> r.value == ["uv", "run", TtsScriptPath(hookDir, TtsScriptChoice(env, present).value), CompletionMessage]
  {
    match TtsScriptChoice(env, present)
    case None => None
    case Some(s) => Some(["uv", "run", TtsScriptPath(hookDir, s), CompletionMessage])
  }

  /** A JSON value as `json.load` returns it; numbers keep their text. */
  datatype Json =
    | JNull
    | JBool(b: bool)
    | JNumber(text: string)
    | JString(s: string)
    | JArray(items: seq<Json>)
    | JObject(members: seq<(string, Json)>)

  /** The member of an object under a key (the last one, as `json.load`
      keeps it), if any. */
  function Member(members: seq<(string, Json)>, key: string): (r: Option<Json>)
    ensures r.Some? <==> exists i :: 0 <= i < |members| && members[i].0 == key
  {
    if members == [] then None
    else if members[|members| - 1].0 == key then Some(members[|members| - 1].1)
    else Member(members[..|members| - 1], key)
  }

  /** What `logs/subagent_stop.json` holds before the hook runs: no file,
      a file that opening raises on (a directory, no permission), one whose
      text `json.load` rejects, or the value it parses to. */
  datatype OldLog = Missing | OpenFails | Unparseable | Parsed(value: Json)

  /** What `os.path.exists` and reading the transcript give: the call
      raises (the path value is not a path), the file does not exist, it
      exists but reading it or writing `logs/chat.json` fails (the inner
      `except` swallows both alike), or its lines. */
  datatype Transcript = PathRaises | NotFound | ReadFails | Lines(lines: seq<string>)

  /** How `parse_args` ends: an unknown argument (argparse exits with 2),
      `--help` (it exits with 0), or the `--chat` switch's value. */
  datatype ArgsOutcome = ArgsRejected | HelpShown | ArgsParsed(chat: bool)

  /** What the hook leaves behind. */
  datatype Effects = Effects(log: Option<seq<Json>>, chat: Option<seq<Json>>, announced: bool, exitCode: int)

  /** The chat entries for a transcript: in order, the value of every line
      that is not blank once stripped and that parses as JSON. */
  function TranscriptJson(lines: seq<string>, parse: string -> Option<Json>): seq<Json>
  {
    if lines == [] then []
    else TranscriptJson(lines[..|lines| - 1], parse) + LineJson(lines[|lines| - 1], parse)
  }

  /** What one transcript line contributes: nothing when blank or invalid. */
  function LineJson(line: string, parse: string -> Option<Json>): (r: seq<Json>)
    ensures |r| <= 1
    ensures r != [] <==> Strip(line, Whitespace) != "" && parse(Strip(line, Whitespace)).Some?
  {
    var t := Strip(line, Whitespace);
    if t != "" && parse(t).Some? then [parse(t).value] else []
  }

  /** Converting two runs of lines converts each, one after the other. */
  lemma {:induction false} TranscriptAppend(a: seq<string>, b: seq<string>, parse: string -> Option<Json>)
    ensures TranscriptJson(a + b, parse) == TranscriptJson(a, parse) + TranscriptJson(b, parse)
    decreases |b|
  {
    if b == [] {
      assert a + b == a;
    } else {
      var c := b[..|b| - 1];
      assert (a + b)[..|a + b| - 1] == a + c;
      assert (a + b)[|a + b| - 1] == b[|b| - 1];
      TranscriptAppend(a, c, parse);
    }
  }

  /** No line gives more than one entry. With TranscriptAppend and
      LineJson, the entries are exactly the values of the valid lines, in
      order. */
  lemma {:induction false} TranscriptAtMost(lines: seq<string>, parse: string -> Option<Json>)
    ensures |TranscriptJson(lines, parse)| <= |lines|
  {
    if lines != [] {
      TranscriptAtMost(lines[..|lines| - 1], parse);
    }
  }

  /** When every line is valid, each gives one entry. */
  lemma {:induction false} TranscriptAllValid(lines: seq<string>, parse: string -> Option<Json>)
    requires forall i :: 0 <= i < |lines| ==> LineJson(lines[i], parse) != []
    ensures |TranscriptJson(lines, parse)| == |lines|
  {
    if lines != [] {
      var init := lines[..|lines| - 1];
      assert forall i :: 0 <= i < |init| ==> init[i] == lines[i];
      TranscriptAllValid(init, parse);
      assert LineJson(lines[|lines| - 1], parse) != [];
    }
  }

  /** When no line is valid, there is no entry. */
  lemma {:induction false} TranscriptNoneValid(lines: seq<string>, parse: string -> Option<Json>)
    requires forall i :: 0 <= i < |lines| ==> LineJson(lines[i], parse) == []
    ensures TranscriptJson(lines, parse) == []
  {
    if lines != [] {
      var init := lines[..|lines| - 1];
      assert forall i :: 0 <= i < |init| ==> init[i] == lines[i];
      TranscriptNoneValid(init, parse);
      assert LineJson(lines[|lines| - 1], parse) == [];
    }
  }

  /** The loop over the transcript file's lines. */
  method ConvertTranscript(lines: seq<string>, parse: string -> Option<Json>) returns (chat: seq<Json>)
    ensures chat == TranscriptJson(lines, parse)
  {
    chat := [];
    for i := 0 to |lines|
      invariant chat == TranscriptJson(lines[..i], parse)
    {
      var line := Strip(lines[i], Whitespace);
      if line != "" {
        var value := parse(line);
        if value.Some? {
          chat := chat + [value.value];
        }
      }
      assert lines[..i + 1][..i] == lines[..i];
    }
    assert lines[..|lines|] == lines;
  }

  /** The entries of the old log the new one extends: a missing or
      unparseable log counts as `[]`; a log that cannot be opened raises, and
      one that parses to anything but a list has no `append`, so in both
      cases there are none. */
  function OldEntries(prior: OldLog): Option<seq<Json>>
  {
    match prior
    case Missing => Some([])
    case OpenFails => None
    case Unparseable => Some([])
    case Parsed(JArray(items)) => Some(items)
    case Parsed(_) => None
  }

  /** `main`. The outer `try` turns every exception into exit code 0, so
      only argparse's own exit (2 for a rejected command line) differs.
      `writeFails` says whether opening or writing the new log raises. */
  method RunHook(args: ArgsOutcome, stdin: Option<Json>, prior: OldLog, writeFails: bool, transcript: Json -> Transcript,
              parse: string -> Option<Json>, hookDir: string, env: map<string, string>, present: set<TtsScript>)
    returns (e: Effects)
    ensures e.exitCode == if args.ArgsRejected? then 2 else 0
    ensures e.log.Some? <==>
      args.ArgsParsed? && stdin.Some? && stdin.value.JObject? && OldEntries(prior).Some? && !writeFails
    ensures e.log.None? ==> e.chat.None? && !e.announced
    ensures e.log.Some? ==> e.log.value == OldEntries(prior).value + [stdin.value]
    ensures e.chat.Some? ==>
      e.log.Some? && args.chat && Member(stdin.value.members, "transcript_path").Some?
      && transcript(Member(stdin.value.members, "transcript_path").value).Lines?
      && e.chat.value == TranscriptJson(transcript(Member(stdin.value.members, "transcript_path").value).lines, parse)
    ensures (e.log.Some? && args.chat && Member(stdin.value.members, "transcript_path").Some?
             && transcript(Member(stdin.value.members, "transcript_path").value).Lines?) ==> e.chat.Some?
    ensures e.announced ==> e.log.Some? && AnnounceCommand(hookDir, env, present).Some?
    ensures e.log.Some? ==>
      var path := Member(stdin.value.members, "transcript_path");
      if args.chat && path.Some? && transcript(path.value).PathRaises? then !e.announced
      else e.announced == AnnounceCommand(hookDir, env, present).Some?
  {
    if args.ArgsRejected? {
      return Effects(None, None, false, 2);
    }
    if args.HelpShown? {
      return Effects(None, None, false, 0);
    }
    if stdin.None? || !stdin.value.JObject? {
      return Effects(None, None, false, 0);
    }
    var input := stdin.value;
    var logData: seq<Json>;
    match prior {
      case Missing => logData := [];
      case OpenFails => return Effects(None, None, false, 0);
      case Unparseable => logData := [];
      case Parsed(v) =>
        if !v.JArray? {
          return Effects(None, None, false, 0);
        }
        logData := v.items;
    }
    logData := logData + [input];
    if writeFails {
      return Effects(None, None, false, 0);
    }
    var chat: Option<seq<Json>> := None;
    var path := Member(input.members, "transcript_path");
    if args.chat && path.Some? {
      var t := transcript(path.value);
      if t.PathRaises? {
        return Effects(Some(logData), None, false, 0);
      }
      if t.Lines? {
        var entries := ConvertTranscript(t.lines, parse);
        chat := Some(entries);
      }
    }
    var announce := AnnounceCommand(hookDir, env, present);
    e := Effects(Some(logData), chat, announce.Some?, 0);
  }
}
