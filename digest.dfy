/** The parser for the standard output of `gitingest` that ctxflow/cli.py
    runs after each digest update (lines 191-220, repeated verbatim at
    294-323), and the two report lines it echoes. */
module Digest {
  import opened Wrappers
  import opened Text

  /** The three slots of `output_structured`. */
  datatype Summary = Summary(outputPath: string, filesAnalyzed: string, tokenSize: string)

  /** The dictionary keys, in the order the dictionary literal inserts them. */
  const SlotKeys: seq<string> := ["output_path", "files_analyzed", "token_size"]

  /** `[x for x in lines if x != ""]`: drops exactly the empty strings. */
  function NonEmpty(lines: seq<string>): (r: seq<string>)
    ensures forall i :: 0 <= i < |r| ==> r[i] != ""
  {
    if lines == [] then []
    else (if lines[0] != "" then [lines[0]] else []) + NonEmpty(lines[1..])
  }

  /** The non-empty lines of the tool's output. */
  function OutputLines(stdout: string): seq<string>
  {
    NonEmpty(Split(stdout, "\n"))
  }

  /** `lines[0:1] + lines[3:]`, with Python's clamping of slice bounds. */
  function Kept(lines: seq<string>): seq<string>
  {
    lines[..if |lines| < 1 then |lines| else 1] + lines[if |lines| < 3 then |lines| else 3..]
  }

  /** `len(line.split(":")) == 2`. */
  predicate KeyValueLine(line: string)
  {
    |Split(line, ":")| == 2
  }

  /** `key_val[1].strip()`. */
  function FieldValue(line: string): string
    requires KeyValueLine(line)
  {
    Strip(Split(line, ":")[1], Whitespace)
  }

  /** What the try block leaves in `output_structured` when it raises no
      `IndexError`; `None` when it does. */
  function ParseDigest(stdout: string): Option<Summary>
  {
    var kept := Kept(OutputLines(stdout));
    if |kept| == 3 && KeyValueLine(kept[0]) && KeyValueLine(kept[1]) && KeyValueLine(kept[2])
    then Some(Summary(FieldValue(kept[0]), FieldValue(kept[1]), FieldValue(kept[2])))
    else None
  }

  /** The lines echoed for a parse outcome: every slot but the output path,
      as `key: value`; nothing at all on failure. */
  function EchoLines(parsed: Option<Summary>): seq<string>
  {
    match parsed
    case None => []
    case Some(s) => [SlotKeys[1] + ": " + s.filesAnalyzed, SlotKeys[2] + ": " + s.tokenSize]
  }

  /** The try block: the length check, then the loop over `enumerate(output)`
      that fills the dictionary, then the loop over its items that echoes. */
  method ParseAndEcho(stdout: string) returns (parsed: Option<Summary>, echoed: seq<string>)
    ensures parsed == ParseDigest(stdout)
    ensures echoed == EchoLines(parsed)
  {
    var output := OutputLines(stdout);
    output := Kept(output);
    if |output| != 3 {
      return None, [];
    }
    var structured := FillSlots(output);
    if structured.None? {
      return None, [];
    }
    var slots := structured.value;
    parsed := Some(Summary(slots[SlotKeys[0]], slots[SlotKeys[1]], slots[SlotKeys[2]]));
    echoed := EchoSlots(slots);
  }

  /** The loop over `enumerate(output)`: slot `idx` receives the stripped
      text after the colon of line `idx`; the first line without exactly
      one colon raises (`None`). */
  method FillSlots(output: seq<string>) returns (structured: Option<map<string, string>>)
    requires |output| == 3
    ensures structured.Some? <==> KeyValueLine(output[0]) && KeyValueLine(output[1]) && KeyValueLine(output[2])
    ensures structured.Some? ==>
      forall k :: 0 <= k < 3 ==> SlotKeys[k] in structured.value && structured.value[SlotKeys[k]] == FieldValue(output[k])
  {
    var slots: map<string, string> := map[SlotKeys[0] := "", SlotKeys[1] := "", SlotKeys[2] := ""];
    for idx := 0 to 3
      invariant Filled(slots, output, idx)
    {
      var keyVal := Split(output[idx], ":");
      if |keyVal| != 2 {
        return None;
      }
      FillStep(slots, output, idx);
      slots := slots[SlotKeys[idx] := Strip(keyVal[1], Whitespace)];
    }
    structured := Some(slots);
  }

  /** Every key has a slot, and the first `n` slots hold the values of the
      first `n` lines. */
  ghost predicate Filled(slots: map<string, string>, output: seq<string>, n: int)
  {
    && (forall k :: 0 <= k < |SlotKeys| ==> SlotKeys[k] in slots)
    && (forall j :: 0 <= j < n && j < |output| && j < |SlotKeys| ==>
          KeyValueLine(output[j]) && slots[SlotKeys[j]] == FieldValue(output[j]))
  }

  /** Filling slot `idx` keeps the slots before it. */
  lemma FillStep(slots: map<string, string>, output: seq<string>, idx: int)
    requires |output| == 3 && 0 <= idx < 3
    requires Filled(slots, output, idx) && KeyValueLine(output[idx])
    ensures Filled(slots[SlotKeys[idx] := FieldValue(output[idx])], output, idx + 1)
  {
    SlotKeysDistinct();
    var m := slots[SlotKeys[idx] := FieldValue(output[idx])];
    forall j | 0 <= j < idx + 1
      ensures KeyValueLine(output[j]) && m[SlotKeys[j]] == FieldValue(output[j])
    {
      if j < idx {
        assert SlotKeys[j] != SlotKeys[idx];
      }
    }
  }

  /** The three keys are different strings (they differ in length). */
  lemma SlotKeysDistinct()
    ensures forall i, j :: 0 <= i < j < |SlotKeys| ==> SlotKeys[i] != SlotKeys[j]
  {
    assert |SlotKeys[0]| == 11 && |SlotKeys[1]| == 14 && |SlotKeys[2]| == 10;
  }

  /** The loop over `output_structured.items()`, in insertion order: echoes
      `key: value` for every key but `output_path`. */
  method EchoSlots(slots: map<string, string>) returns (echoed: seq<string>)
    requires forall k :: 0 <= k < 3 ==> SlotKeys[k] in slots
    ensures echoed == [SlotKeys[1] + ": " + slots[SlotKeys[1]], SlotKeys[2] + ": " + slots[SlotKeys[2]]]
  {
    ghost var all := [SlotKeys[1] + ": " + slots[SlotKeys[1]], SlotKeys[2] + ": " + slots[SlotKeys[2]]];
    echoed := [];
    for k := 0 to |SlotKeys|
      invariant echoed == all[..if k <= 1 then 0 else k - 1]
    {
      if SlotKeys[k] != "output_path" {
        echoed := echoed + [SlotKeys[k] + ": " + slots[SlotKeys[k]]];
      }
    }
  }

  /** Only lines exactly equal to "" are dropped: a list without them is kept
      whole, and removing one "" anywhere changes nothing. Whitespace-only
      lines are not empty and so are kept and counted. */
  lemma {:induction false} NonEmptyDropsOnlyEmpty(a: seq<string>, b: seq<string>)
    ensures NonEmpty(a + [""] + b) == NonEmpty(a + b)
    ensures (forall i :: 0 <= i < |a| ==> a[i] != "") ==> NonEmpty(a) == a
  {
    if a == [] {
      assert a + [""] + b == [""] + b && ([""] + b)[1..] == b && a + b == b;
    } else {
      assert (a + [""] + b)[1..] == a[1..] + [""] + b;
      assert (a + b)[1..] == a[1..] + b;
      NonEmptyDropsOnlyEmpty(a[1..], b);
    }
  }

  /** `len(lines[0:1] + lines[3:]) == 3` holds for exactly five lines. */
  lemma KeptThreeIffFive(lines: seq<string>)
    ensures |Kept(lines)| == 3 <==> |lines| == 5
    ensures |lines| == 5 ==> Kept(lines) == [lines[0], lines[3], lines[4]]
  {
  }

  /** A line with exactly one colon splits into the text before it and the
      text after it. */
  lemma SplitOneColon(line: string, k: int)
    requires 0 <= k < |line| && line[k] == ':' && multiset(line)[':'] == 1
    ensures Split(line, ":") == [line[..k], line[k + 1..]]
  {
    assert line == line[..k] + [line[k]] + line[k + 1..];
    assert multiset(line) == multiset(line[..k]) + multiset{':'} + multiset(line[k + 1..]);
    var ws := [line[..k], line[k + 1..]];
    assert Join(ws[1..], ":") == line[k + 1..];
    assert Join(ws, ":") == line;
    SplitJoin(ws, ':');
  }

  /** A line holding exactly one colon. */
  predicate OneColon(line: string)
  {
    multiset(line)[':'] == 1
  }

  /** The stripped text after the last colon of a line. */
  function AfterColon(line: string): string
  {
    Strip(line[RFind(line, ':') + 1..], Whitespace)
  }

  /** `line.split(":")` has two pieces exactly when the line has one colon,
      and then the value is the stripped text after that colon. */
  lemma KeyValueIffOneColon(line: string)
    ensures KeyValueLine(line) <==> OneColon(line)
    ensures KeyValueLine(line) ==> FieldValue(line) == AfterColon(line)
  {
    SplitCount(line, ':');
    if OneColon(line) {
      OneColonSplit(line);
    }
  }

  /** A line with one colon splits at its last colon. */
  lemma OneColonSplit(line: string)
    requires OneColon(line)
    ensures Split(line, ":") == [line[..RFind(line, ':')], line[RFind(line, ':') + 1..]]
  {
    assert ':' in multiset(line);
    assert ':' in line;
    SplitOneColon(line, RFind(line, ':'));
  }

  /** When the parse succeeds, and where its values come from. The output
      has exactly five non-empty lines; lines 1 and 2 are ignored; lines 0,
      3 and 4 each have exactly one colon and give, stripped, the text after
      it to the output path, the file count and the token size. Any other
      shape (another count, a line with no colon or with two) is a failure. */
  lemma ParseDigestCharacterised(stdout: string)
    ensures var lines := OutputLines(stdout);
      ParseDigest(stdout) ==
        if |lines| == 5 && OneColon(lines[0]) && OneColon(lines[3]) && OneColon(lines[4])
        then Some(Summary(AfterColon(lines[0]), AfterColon(lines[3]), AfterColon(lines[4])))
        else None
  {
    var lines := OutputLines(stdout);
    KeptThreeIffFive(lines);
    if |lines| == 5 {
      KeyValueIffOneColon(lines[0]);
      KeyValueIffOneColon(lines[3]);
      KeyValueIffOneColon(lines[4]);
    }
  }

  /** The labelled line `label: value` the tool prints. */
  function Labelled(key: string, value: string): string
  {
    key + ":" + value
  }

  /** The output shape the parser is written for: a first labelled line, two
      header lines, two more labelled lines, each ended by a newline. Parsing
      it gives back the three values, stripped. */
  lemma DigestRoundTrip(key0: string, path: string, header1: string, header2: string,
                        key1: string, files: string, key2: string, tokens: string)
    requires header1 != "" && header2 != ""
    requires ':' !in key0 && ':' !in path && ':' !in key1 && ':' !in files
    requires ':' !in key2 && ':' !in tokens
    requires '\n' !in key0 && '\n' !in path && '\n' !in header1 && '\n' !in header2
    requires '\n' !in key1 && '\n' !in files && '\n' !in key2 && '\n' !in tokens
    ensures ParseDigest(Join([Labelled(key0, path), header1, header2, Labelled(key1, files),
                              Labelled(key2, tokens), ""], "\n"))
         == Some(Summary(Strip(path, Whitespace), Strip(files, Whitespace), Strip(tokens, Whitespace)))
  {
    var l0, l3, l4 := Labelled(key0, path), Labelled(key1, files), Labelled(key2, tokens);
    assert l0[|key0|] == ':' && l3[|key1|] == ':' && l4[|key2|] == ':';
    var body := [l0, header1, header2, l3, l4];
    var stdout := Join(body + [""], "\n");
    assert body + [""] == [l0, header1, header2, l3, l4, ""];
    TerminatedLines(body);
    KeptThreeIffFive(body);
    var kept := Kept(OutputLines(stdout));
    assert kept == [l0, l3, l4];
    LabelledSplit(key0, path);
    LabelledSplit(key1, files);
    LabelledSplit(key2, tokens);
  }

  /** Lines that are non-empty and hold no newline, each ended by a newline,
      are read back as exactly those lines. */
  lemma TerminatedLines(body: seq<string>)
    requires |body| >= 1
    requires forall i :: 0 <= i < |body| ==> body[i] != "" && '\n' !in body[i]
    ensures OutputLines(Join(body + [""], "\n")) == body
  {
    var ws := body + [""];
    assert forall i :: 0 <= i < |ws| ==> '\n' !in ws[i] by {
      forall i | 0 <= i < |ws| ensures '\n' !in ws[i] {
        if i < |body| { assert ws[i] == body[i]; }
      }
    }
    SplitJoin(ws, '\n');
    assert ws == body + [""] + [];
    NonEmptyDropsOnlyEmpty(body, []);
    assert body + [] == body;
  }

  lemma LabelledSplit(key: string, value: string)
    requires ':' !in key && ':' !in value
    ensures KeyValueLine(Labelled(key, value)) && FieldValue(Labelled(key, value)) == Strip(value, Whitespace)
  {
    var ws := [key, value];
    assert Join(ws, ":") == Labelled(key, value);
    SplitJoin(ws, ':');
  }
}
