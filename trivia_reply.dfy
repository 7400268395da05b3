/**
 * Reading a trivia question out of the language model's reply
 * (`generate_trivia_question`). The reply is expected in the form
 *   QUESTION: ...
 *   A: ...   B: ...   C: ...   D: ...
 * one item per line; a reply that does not give a question and exactly four
 * options is replaced by the built-in question of the category.
 */
module TriviaReply {
  import opened Common
  import opened Text

  datatype TriviaData = TriviaData(question: string, options: seq<string>)

  const TRIVIA_CATEGORIES: seq<string> :=
    ["favorites", "memories", "preferences", "dreams", "habits", "personality"]

  /** `line.startswith(("A:", "B:", "C:", "D:"))` */
  predicate IsOptionLine(line: string) {
    StartsWith(line, "A:") || StartsWith(line, "B:") || StartsWith(line, "C:") || StartsWith(line, "D:")
  }

  /** What the loop has read so far: the last question text and the options in order. */
  datatype Scanned = Scanned(question: string, options: seq<string>)

  /**
   * One pass of the loop body: a `QUESTION:` line replaces the question, an
   * option line appends its text, any other line is skipped.
   */
  function Step(acc: Scanned, line: string): Scanned {
    var l := Strip(line);
    if StartsWith(l, "QUESTION:") then acc.(question := Strip(RemoveAll(l, "QUESTION:")))
    else if IsOptionLine(l) then acc.(options := acc.options + [Strip(l[2..])])
    else acc
  }

  /** The loop over the reply's lines, starting from `acc`. */
  function Scan(lines: seq<string>, acc: Scanned): Scanned
    decreases |lines|
  {
    if lines == [] then acc else Scan(lines[1..], Step(acc, lines[0]))
  }

  /** What the parser accepts: a non-empty question and exactly four options. */
  function Parse(reply: string): (r: Option<TriviaData>)
    ensures r.Some? ==> r.value.question != [] && |r.value.options| == 4
  {
    var scanned := Scan(Split(Strip(reply), '\n'), Scanned("", []));
    if scanned.question != [] && |scanned.options| == 4 then Some(TriviaData(scanned.question, scanned.options))
    else None
  }

  /** The parsing code of `generate_trivia_question`: split into lines, scan them, check the result. */
  method ParseReply(reply: string) returns (r: Option<TriviaData>)
    ensures r == Parse(reply)
  {
    var lines := Split(Strip(reply), '\n');
    var scanned := ScanLines(lines);
    if scanned.question != "" && |scanned.options| == 4 {
      r := Some(TriviaData(scanned.question, scanned.options));
    } else {
      r := None;
    }
  }

  /** The `for line in lines` loop, updating `question` and appending to `options`. */
  method ScanLines(lines: seq<string>) returns (scanned: Scanned)
    ensures scanned == Scan(lines, Scanned("", []))
  {
    var question := "";
    var options: seq<string> := [];
    var i := 0;
    while i < |lines|
      invariant 0 <= i <= |lines|
      invariant Scan(lines[i..], Scanned(question, options)) == Scan(lines, Scanned("", []))
    {
      ScanFrom(lines, i, Scanned(question, options));
      var line := Strip(lines[i]);
      if StartsWith(line, "QUESTION:") {
        question := Strip(RemoveAll(line, "QUESTION:"));
      } else if IsOptionLine(line) {
        options := options + [Strip(line[2..])];
      }
      i := i + 1;
    }
    assert lines[i..] == [];
    scanned := Scanned(question, options);
  }

  lemma ScanFrom(lines: seq<string>, i: nat, acc: Scanned)
    requires i < |lines|
    ensures Scan(lines[i..], acc) == Scan(lines[i + 1..], Step(acc, lines[i]))
  {
    assert lines[i..][1..] == lines[i + 1..];
  }

  predicate ScannedTrimmed(acc: Scanned) {
    Trimmed(acc.question) && forall k :: 0 <= k < |acc.options| ==> Trimmed(acc.options[k])
  }

  /** Every question and option the scan produces is stripped of surrounding whitespace. */
  lemma {:induction false} ScanTrimmed(lines: seq<string>, acc: Scanned)
    requires ScannedTrimmed(acc)
    ensures ScannedTrimmed(Scan(lines, acc))
    decreases |lines|
  {
    if lines != [] {
      var l := Strip(lines[0]);
      if StartsWith(l, "QUESTION:") {
        StripResult(RemoveAll(l, "QUESTION:"));
      } else if IsOptionLine(l) {
        StripResult(l[2..]);
      }
      ScanTrimmed(lines[1..], Step(acc, lines[0]));
    }
  }

  /** An accepted question and its options carry no surrounding whitespace. */
  lemma ParseTrimmed(reply: string)
    requires Parse(reply).Some?
    ensures Trimmed(Parse(reply).value.question)
    ensures forall k :: 0 <= k < 4 ==> Trimmed(Parse(reply).value.options[k])
  {
    ScanTrimmed(Split(Strip(reply), '\n'), Scanned("", []));
  }

  /** Text that fits on one line of the reply format. */
  predicate OneLine(s: string) {
    s != [] && '\n' !in s && Trimmed(s)
  }

  /** A trivia question the reply format can carry unchanged. */
  ghost predicate Writable(d: TriviaData) {
    && |d.options| == 4
    && OneLine(d.question) && NoOccurrence(d.question, "QUESTION:")
    && forall k :: 0 <= k < 4 ==> OneLine(d.options[k])
  }

  /** The reply format the prompt asks the model for. */
  function Format(d: TriviaData): string
    requires |d.options| == 4
  {
    Join(FormatLines(d), '\n')
  }

  function FormatLines(d: TriviaData): seq<string>
    requires |d.options| == 4
  {
    ["QUESTION: " + d.question, "A: " + d.options[0], "B: " + d.options[1],
     "C: " + d.options[2], "D: " + d.options[3]]
  }

  lemma ScanCons(line: string, rest: seq<string>, acc: Scanned)
    ensures Scan([line] + rest, acc) == Scan(rest, Step(acc, line))
  {
    assert ([line] + rest)[1..] == rest;
  }

  /** The question line of the format sets the question to exactly its text. */
  lemma StepQuestionLine(q: string, acc: Scanned)
    requires OneLine(q) && NoOccurrence(q, "QUESTION:")
    ensures Step(acc, "QUESTION: " + q) == acc.(question := q)
  {
    assert "QUESTION: " + q == "QUESTION:" + " " + q;
    KeywordLineTrimmed("QUESTION:", q);
    KeywordLineStarts("QUESTION:", q);
    KeywordLineText("QUESTION:", q);
    StepQuestion("QUESTION: " + q, q, acc);
  }

  lemma StepQuestion(line: string, q: string, acc: Scanned)
    requires Strip(line) == line && StartsWith(line, "QUESTION:")
    requires Strip(RemoveAll(line, "QUESTION:")) == q
    ensures Step(acc, line) == acc.(question := q)
  {
  }

  lemma OptionLineTrimmed(c: char, o: string)
    requires c in "ABCD" && OneLine(o)
    ensures Strip([c, ':', ' '] + o) == [c, ':', ' '] + o
  {
    var line := [c, ':', ' '] + o;
    assert line[0] == c;
    assert line[|line| - 1] == o[|o| - 1];
    StripTrimmed(line);
  }

  lemma OptionLineKind(c: char, o: string)
    requires c in "ABCD"
    ensures !StartsWith([c, ':', ' '] + o, "QUESTION:") && IsOptionLine([c, ':', ' '] + o)
  {
    var line := [c, ':', ' '] + o;
    assert line[0] == c;
    assert line[..2] == [c, ':'];
  }

  lemma OptionLineText(c: char, o: string)
    requires OneLine(o)
    ensures Strip(([c, ':', ' '] + o)[2..]) == o
  {
    assert ([c, ':', ' '] + o)[2..] == " " + o;
    StripPadded(o);
  }

  /** An option line of the format appends exactly its text to the options. */
  lemma StepOptionLine(c: char, o: string, acc: Scanned)
    requires c in "ABCD" && OneLine(o)
    ensures Step(acc, [c, ':', ' '] + o) == acc.(options := acc.options + [o])
  {
    OptionLineTrimmed(c, o);
    OptionLineKind(c, o);
    OptionLineText(c, o);
    StepOption([c, ':', ' '] + o, o, acc);
  }

  lemma StepOption(line: string, o: string, acc: Scanned)
    requires Strip(line) == line && !StartsWith(line, "QUESTION:") && IsOptionLine(line)
    requires Strip(line[2..]) == o
    ensures Step(acc, line) == acc.(options := acc.options + [o])
  {
  }

  lemma FormatLinesShape(d: TriviaData)
    requires Writable(d)
    ensures forall k :: 0 <= k < 5 ==> FormatLines(d)[k] != [] && '\n' !in FormatLines(d)[k]
  {
    var lines := FormatLines(d);
    forall k | 0 <= k < 5
      ensures lines[k] != [] && '\n' !in lines[k]
    {
      if k > 0 {
        assert OneLine(d.options[k - 1]);
      }
    }
  }

  lemma FormatTrimmed(d: TriviaData)
    requires Writable(d)
    ensures Strip(Format(d)) == Format(d)
  {
    FormatLinesShape(d);
    var lines := FormatLines(d);
    JoinEnds(lines, '\n');
    assert OneLine(d.options[3]);
    StripTrimmed(Format(d));
  }

  /** Line `k` of the format written uniformly: the question line, then the option lines lettered A to D. */
  function FormatLine(d: TriviaData, k: nat): string
    requires |d.options| == 4 && k < 5
  {
    if k == 0 then "QUESTION: " + d.question else ["ABCD"[k - 1], ':', ' '] + d.options[k - 1]
  }

  /** What the scan holds after the first `k` lines of the format. */
  function FormatState(d: TriviaData, k: nat): Scanned
    requires |d.options| == 4 && k <= 5
  {
    if k == 0 then Scanned("", []) else Scanned(d.question, d.options[..k - 1])
  }

  lemma FormatLineAt(d: TriviaData, k: nat)
    requires |d.options| == 4 && k < 5
    ensures FormatLines(d)[k] == FormatLine(d, k)
  {
  }

  /** Each line of the format moves the scan one item further. */
  lemma StepFormatLine(d: TriviaData, k: nat)
    requires Writable(d) && k < 5
    ensures Step(FormatState(d, k), FormatLine(d, k)) == FormatState(d, k + 1)
  {
    if k == 0 {
      StepQuestionLine(d.question, Scanned("", []));
      assert d.options[..0] == [];
    } else {
      assert OneLine(d.options[k - 1]);
      StepOptionAt(d, k);
    }
  }

  lemma StepOptionAt(d: TriviaData, k: nat)
    requires |d.options| == 4 && 1 <= k < 5 && OneLine(d.options[k - 1])
    ensures Step(FormatState(d, k), FormatLine(d, k)) == FormatState(d, k + 1)
  {
    var o := d.options;
    var c := "ABCD"[k - 1];
    var acc := Scanned(d.question, o[..k - 1]);
    assert FormatState(d, k) == acc;
    assert FormatLine(d, k) == [c, ':', ' '] + o[k - 1];
    assert FormatState(d, k + 1) == acc.(options := acc.options + [o[k - 1]]) by {
      assert o[..k - 1] + [o[k - 1]] == o[..k];
    }
    StepOptionLine(c, o[k - 1], acc);
  }

  /** Scanning the format from line `k` on, in the state after `k` lines, reads back the whole question. */
  lemma {:induction false} ScanFormatFrom(d: TriviaData, k: nat)
    requires Writable(d) && k <= 5
    ensures Scan(FormatLines(d)[k..], FormatState(d, k)) == Scanned(d.question, d.options)
    decreases 5 - k
  {
    if k == 5 {
      assert FormatLines(d)[k..] == [];
      assert d.options[..4] == d.options;
    } else {
      ScanFormatStep(d, k);
      ScanFormatFrom(d, k + 1);
    }
  }

  lemma ScanFormatStep(d: TriviaData, k: nat)
    requires Writable(d) && k < 5
    ensures Scan(FormatLines(d)[k..], FormatState(d, k)) == Scan(FormatLines(d)[k + 1..], FormatState(d, k + 1))
  {
    ScanFrom(FormatLines(d), k, FormatState(d, k));
    FormatLineAt(d, k);
    StepFormatLine(d, k);
  }

  /** Scanning the five lines of the format reads back the question and the four options. */
  lemma ScanFormat(d: TriviaData)
    requires Writable(d)
    ensures Scan(FormatLines(d), Scanned("", [])) == Scanned(d.question, d.options)
  {
    ScanFormatFrom(d, 0);
    assert FormatLines(d)[0..] == FormatLines(d);
  }

  /** A reply written in the requested format is read back exactly. */
  lemma ParseFormat(d: TriviaData)
    requires Writable(d)
    ensures Parse(Format(d)) == Some(d)
  {
    FormatTrimmed(d);
    FormatLinesShape(d);
    SplitJoin(FormatLines(d), '\n');
    ScanFormat(d);
  }

  /**
   * The built-in question of each category, in the order of `TRIVIA_CATEGORIES`:
   * the text before the subject's name, the text after it, and the four options.
   */
  const FALLBACK_TRIVIA: seq<(string, string, seq<string>)> := [
    ("What is ", "'s favorite way to spend a lazy Sunday?",
      ["Sleeping in and watching movies", "Going for a hike or outdoor activity", "Cooking a big brunch", "Reading or relaxing at home"]),
    ("What made ", " laugh the hardest recently?",
      ["A funny video or meme", "Something you said", "A pet doing something silly", "A comedy show or movie"]),
    ("How does ", " prefer to unwind after a stressful day?",
      ["Exercise or physical activity", "Quiet time alone", "Talking about their day", "Comfort food and TV"]),
    ("What's on ", "'s bucket list?",
      ["Traveling to a specific country", "Learning a new skill", "Starting a business", "An adventure activity"]),
    ("What's ", "'s morning routine like?",
      ["Quick shower and out the door", "Coffee first, everything else later", "Full routine with breakfast", "Hit snooze multiple times"]),
    ("What's ", "'s love language?",
      ["Words of affirmation", "Quality time", "Physical touch", "Acts of service"])]

  /** The built-in question about `name` for `category`; an unknown category falls back to "favorites". */
  function Fallback(name: string, category: string): (d: TriviaData)
    ensures d.question != [] && |d.options| == 4
  {
    var entry := FALLBACK_TRIVIA[IndexOrFirst(category, TRIVIA_CATEGORIES)];
    TriviaData(entry.0 + name + entry.1, entry.2)
  }

  /**
   * `generate_trivia_question` after the model call: `reply` is what the call
   * returned (None when it failed). Whatever the reply, the question offers
   * exactly four options.
   */
  function TriviaFor(reply: Option<string>, name: string, category: string): (d: TriviaData)
    ensures d.question != [] && |d.options| == 4
    ensures reply.Some? && Parse(reply.value).Some? ==> d == Parse(reply.value).value
    ensures (reply.None? || Parse(reply.value).None?) ==> d == Fallback(name, category)
  {
    if reply.Some? && reply.value != "" then
      match Parse(reply.value)
      case Some(parsed) => parsed
      case None => Fallback(name, category)
    else
      ParseEmpty();
      Fallback(name, category)
  }

  /** An empty reply (falsy in the source) would not parse either. */
  lemma ParseEmpty()
    ensures Parse("") == None
  {
    assert Strip("") == "";
    assert Split("", '\n') == [""];
    assert Step(Scanned("", []), "") == Scanned("", []);
    assert Scan([""], Scanned("", [])) == Scan([], Scanned("", []));
  }
}
