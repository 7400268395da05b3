/**
 * Reading a date idea out of the language model's reply (`generate_date_idea`).
 * The reply is expected in the form
 *   TITLE: ...   DESCRIPTION: ...   TIP1: ...   TIP2: ...   TIP3: ...
 * one item per line. A reply with a title and a description is used (with
 * three default tips when it gives none); anything else is replaced by the
 * built-in idea for the requested mood.
 */
module DateIdeaReply {
  import opened Common
  import opened Text

  datatype IdeaData = IdeaData(title: string, description: string, tips: seq<string>)

  /** The tips used when an accepted reply gives none. */
  const DEFAULT_TIPS: seq<string> := ["Have fun!", "Take photos", "Be present"]

  /** `line.startswith(("TIP1:", "TIP2:", "TIP3:"))` */
  predicate IsTipLine(line: string) {
    StartsWith(line, "TIP1:") || StartsWith(line, "TIP2:") || StartsWith(line, "TIP3:")
  }

  /** A tip line has its first colon at position 4. */
  lemma TipLineColon(line: string)
    requires IsTipLine(line)
    ensures ':' in line && IndexOf(line, ':') == 4
  {
    assert line[..5] in ["TIP1:", "TIP2:", "TIP3:"];
    assert line[4] == line[..5][4];
    assert forall j :: 0 <= j < 4 ==> line[j] == line[..5][j];
  }

  /**
   * One pass of the loop body: a `TITLE:` or `DESCRIPTION:` line replaces the
   * title or the description, a tip line appends the text after its first
   * colon, any other line is skipped.
   */
  function Step(acc: IdeaData, line: string): IdeaData {
    var l := Strip(line);
    if StartsWith(l, "TITLE:") then acc.(title := Strip(RemoveAll(l, "TITLE:")))
    else if StartsWith(l, "DESCRIPTION:") then acc.(description := Strip(RemoveAll(l, "DESCRIPTION:")))
    else if IsTipLine(l) then
      TipLineColon(l);
      acc.(tips := acc.tips + [Strip(AfterFirst(l, ':'))])
    else acc
  }

  /** The loop over the reply's lines, starting from `acc`. */
  function Scan(lines: seq<string>, acc: IdeaData): IdeaData
    decreases |lines|
  {
    if lines == [] then acc else Scan(lines[1..], Step(acc, lines[0]))
  }

  lemma ScanFrom(lines: seq<string>, i: nat, acc: IdeaData)
    requires i < |lines|
    ensures Scan(lines[i..], acc) == Scan(lines[i + 1..], Step(acc, lines[i]))
  {
    assert lines[i..][1..] == lines[i + 1..];
  }

  /** What the parser accepts: a non-empty title and description; no tips means the default tips. */
  function Parse(reply: string): (r: Option<IdeaData>)
    ensures r.Some? ==> r.value.title != [] && r.value.description != [] && r.value.tips != []
  {
    var scanned := Scan(Split(Strip(reply), '\n'), IdeaData("", "", []));
    if scanned.title != [] && scanned.description != [] then
      Some(scanned.(tips := if scanned.tips == [] then DEFAULT_TIPS else scanned.tips))
    else None
  }

  /** The parsing code of `generate_date_idea`: split into lines, scan them, check the result. */
  method ParseReply(reply: string) returns (r: Option<IdeaData>)
    ensures r == Parse(reply)
  {
    var lines := Split(Strip(reply), '\n');
    var scanned := ScanLines(lines);
    if scanned.title != "" && scanned.description != "" {
      var tips := scanned.tips;
      if tips == [] {
        tips := DEFAULT_TIPS;
      }
      r := Some(IdeaData(scanned.title, scanned.description, tips));
    } else {
      r := None;
    }
  }

  /** The `for line in lines` loop, updating `title` and `description` and appending to `tips`. */
  method ScanLines(lines: seq<string>) returns (scanned: IdeaData)
    ensures scanned == Scan(lines, IdeaData("", "", []))
  {
    var title := "";
    var description := "";
    var tips: seq<string> := [];
    var i := 0;
    while i < |lines|
      invariant 0 <= i <= |lines|
      invariant Scan(lines[i..], IdeaData(title, description, tips)) == Scan(lines, IdeaData("", "", []))
    {
      ScanFrom(lines, i, IdeaData(title, description, tips));
      var line := Strip(lines[i]);
      if StartsWith(line, "TITLE:") {
        title := Strip(RemoveAll(line, "TITLE:"));
      } else if StartsWith(line, "DESCRIPTION:") {
        description := Strip(RemoveAll(line, "DESCRIPTION:"));
      } else if IsTipLine(line) {
        TipLineColon(line);
        tips := tips + [Strip(AfterFirst(line, ':'))];
      }
      i := i + 1;
    }
    assert lines[i..] == [];
    scanned := IdeaData(title, description, tips);
  }

  /** Text that fits on one line of the reply format. */
  predicate OneLine(s: string) {
    s != [] && '\n' !in s && Trimmed(s)
  }

  /** A date idea the reply format can carry unchanged: three one-line tips, and no keyword inside its own field. */
  ghost predicate Writable(d: IdeaData) {
    && OneLine(d.title) && NoOccurrence(d.title, "TITLE:")
    && OneLine(d.description) && NoOccurrence(d.description, "DESCRIPTION:")
    && |d.tips| == 3
    && forall k :: 0 <= k < 3 ==> OneLine(d.tips[k])
  }

  /** The lines of the reply format the prompt asks the model for. */
  function FormatLines(d: IdeaData): seq<string>
    requires |d.tips| == 3
  {
    ["TITLE: " + d.title, "DESCRIPTION: " + d.description,
     "TIP1: " + d.tips[0], "TIP2: " + d.tips[1], "TIP3: " + d.tips[2]]
  }

  function Format(d: IdeaData): string
    requires |d.tips| == 3
  {
    Join(FormatLines(d), '\n')
  }

  lemma StepTitle(line: string, t: string, acc: IdeaData)
    requires Strip(line) == line && StartsWith(line, "TITLE:")
    requires Strip(RemoveAll(line, "TITLE:")) == t
    ensures Step(acc, line) == acc.(title := t)
  {
  }

  /** The title line of the format sets the title to exactly its text. */
  lemma StepTitleLine(t: string, acc: IdeaData)
    requires OneLine(t) && NoOccurrence(t, "TITLE:")
    ensures Step(acc, "TITLE: " + t) == acc.(title := t)
  {
    assert "TITLE: " + t == "TITLE:" + " " + t;
    KeywordLineTrimmed("TITLE:", t);
    KeywordLineStarts("TITLE:", t);
    KeywordLineText("TITLE:", t);
    StepTitle("TITLE: " + t, t, acc);
  }

  lemma StepDescription(line: string, t: string, acc: IdeaData)
    requires Strip(line) == line && !StartsWith(line, "TITLE:") && StartsWith(line, "DESCRIPTION:")
    requires Strip(RemoveAll(line, "DESCRIPTION:")) == t
    ensures Step(acc, line) == acc.(description := t)
  {
  }

  /** The description line of the format sets the description to exactly its text. */
  lemma StepDescriptionLine(t: string, acc: IdeaData)
    requires OneLine(t) && NoOccurrence(t, "DESCRIPTION:")
    ensures Step(acc, "DESCRIPTION: " + t) == acc.(description := t)
  {
    var line := "DESCRIPTION: " + t;
    assert line == "DESCRIPTION:" + " " + t;
    KeywordLineTrimmed("DESCRIPTION:", t);
    KeywordLineStarts("DESCRIPTION:", t);
    KeywordLineText("DESCRIPTION:", t);
    DescriptionLineNotTitle(t);
    StepDescription(line, t, acc);
  }

  lemma DescriptionLineNotTitle(t: string)
    ensures !StartsWith("DESCRIPTION: " + t, "TITLE:")
  {
    assert ("DESCRIPTION: " + t)[0] == 'D';
  }

  lemma TipLineTrimmed(n: char, t: string)
    requires OneLine(t)
    ensures Strip(['T', 'I', 'P', n, ':', ' '] + t) == ['T', 'I', 'P', n, ':', ' '] + t
  {
    var line := ['T', 'I', 'P', n, ':', ' '] + t;
    assert line[0] == 'T';
    assert line[|line| - 1] == t[|t| - 1];
    StripTrimmed(line);
  }

  lemma TipLineKind(n: char, t: string)
    requires n in "123"
    ensures var line := ['T', 'I', 'P', n, ':', ' '] + t;
      !StartsWith(line, "TITLE:") && !StartsWith(line, "DESCRIPTION:") && IsTipLine(line)
  {
    var line := ['T', 'I', 'P', n, ':', ' '] + t;
    assert line[0] == 'T' && line[1] == 'I';
    assert line[..5] == ['T', 'I', 'P', n, ':'];
  }

  lemma TipLineText(n: char, t: string)
    requires n in "123" && OneLine(t)
    ensures var line := ['T', 'I', 'P', n, ':', ' '] + t;
      ':' in line && Strip(AfterFirst(line, ':')) == t
  {
    var line := ['T', 'I', 'P', n, ':', ' '] + t;
    TipLineKind(n, t);
    TipLineColon(line);
    assert line[5..] == " " + t;
    StripPadded(t);
  }

  lemma StepTip(line: string, t: string, acc: IdeaData)
    requires Strip(line) == line && !StartsWith(line, "TITLE:") && !StartsWith(line, "DESCRIPTION:") && IsTipLine(line)
    requires ':' in line && Strip(AfterFirst(line, ':')) == t
    ensures Step(acc, line) == acc.(tips := acc.tips + [t])
  {
  }

  /** A tip line of the format appends exactly its text to the tips. */
  lemma StepTipLine(n: char, t: string, acc: IdeaData)
    requires n in "123" && OneLine(t)
    ensures Step(acc, ['T', 'I', 'P', n, ':', ' '] + t) == acc.(tips := acc.tips + [t])
  {
    TipLineTrimmed(n, t);
    TipLineKind(n, t);
    TipLineText(n, t);
    StepTip(['T', 'I', 'P', n, ':', ' '] + t, t, acc);
  }

  /** Line `k` of the format written uniformly: the title line, the description line, then the tip lines numbered 1 to 3. */
  function FormatLine(d: IdeaData, k: nat): string
    requires |d.tips| == 3 && k < 5
  {
    if k == 0 then "TITLE: " + d.title
    else if k == 1 then "DESCRIPTION: " + d.description
    else ['T', 'I', 'P', "123"[k - 2], ':', ' '] + d.tips[k - 2]
  }

  /** What the scan holds after the first `k` lines of the format. */
  function FormatState(d: IdeaData, k: nat): IdeaData
    requires |d.tips| == 3 && k <= 5
  {
    if k == 0 then IdeaData("", "", [])
    else if k == 1 then IdeaData(d.title, "", [])
    else IdeaData(d.title, d.description, d.tips[..k - 2])
  }

  lemma FormatLineAt(d: IdeaData, k: nat)
    requires |d.tips| == 3 && k < 5
    ensures FormatLines(d)[k] == FormatLine(d, k)
  {
  }

  /** Each line of the format moves the scan one item further. */
  lemma StepFormatLine(d: IdeaData, k: nat)
    requires Writable(d) && k < 5
    ensures Step(FormatState(d, k), FormatLine(d, k)) == FormatState(d, k + 1)
  {
    if k == 0 {
      StepTitleLine(d.title, IdeaData("", "", []));
    } else if k == 1 {
      StepDescriptionLine(d.description, IdeaData(d.title, "", []));
      assert d.tips[..0] == [];
    } else {
      assert OneLine(d.tips[k - 2]);
      StepTipAt(d, k);
    }
  }

  lemma StepTipAt(d: IdeaData, k: nat)
    requires |d.tips| == 3 && 2 <= k < 5 && OneLine(d.tips[k - 2])
    ensures Step(FormatState(d, k), FormatLine(d, k)) == FormatState(d, k + 1)
  {
    var t := d.tips;
    var n := "123"[k - 2];
    var acc := IdeaData(d.title, d.description, t[..k - 2]);
    assert FormatState(d, k) == acc;
    assert FormatLine(d, k) == ['T', 'I', 'P', n, ':', ' '] + t[k - 2];
    assert FormatState(d, k + 1) == acc.(tips := acc.tips + [t[k - 2]]) by {
      assert t[..k - 2] + [t[k - 2]] == t[..k - 1];
    }
    StepTipLine(n, t[k - 2], acc);
  }

  lemma ScanFormatStep(d: IdeaData, k: nat)
    requires Writable(d) && k < 5
    ensures Scan(FormatLines(d)[k..], FormatState(d, k)) == Scan(FormatLines(d)[k + 1..], FormatState(d, k + 1))
  {
    ScanFrom(FormatLines(d), k, FormatState(d, k));
    FormatLineAt(d, k);
    StepFormatLine(d, k);
  }

  /** Scanning the format from line `k` on, in the state after `k` lines, reads back the whole idea. */
  lemma {:induction false} ScanFormatFrom(d: IdeaData, k: nat)
    requires Writable(d) && k <= 5
    ensures Scan(FormatLines(d)[k..], FormatState(d, k)) == d
    decreases 5 - k
  {
    if k == 5 {
      assert FormatLines(d)[k..] == [];
      assert d.tips[..3] == d.tips;
    } else {
      ScanFormatStep(d, k);
      ScanFormatFrom(d, k + 1);
    }
  }

  /** Scanning the five lines of the format reads back the title, the description and the three tips. */
  lemma ScanFormat(d: IdeaData)
    requires Writable(d)
    ensures Scan(FormatLines(d), IdeaData("", "", [])) == d
  {
    ScanFormatFrom(d, 0);
    assert FormatLines(d)[0..] == FormatLines(d);
  }

  lemma FormatLinesShape(d: IdeaData)
    requires Writable(d)
    ensures forall k :: 0 <= k < 5 ==> FormatLines(d)[k] != [] && '\n' !in FormatLines(d)[k]
  {
    var lines := FormatLines(d);
    forall k | 0 <= k < 5
      ensures lines[k] != [] && '\n' !in lines[k]
    {
      if k > 1 {
        assert OneLine(d.tips[k - 2]);
      }
    }
  }

  lemma FormatTrimmed(d: IdeaData)
    requires Writable(d)
    ensures Strip(Format(d)) == Format(d)
  {
    FormatLinesShape(d);
    JoinEnds(FormatLines(d), '\n');
    assert OneLine(d.tips[2]);
    StripTrimmed(Format(d));
  }

  /** A reply written in the requested format is read back exactly. */
  lemma ParseFormat(d: IdeaData)
    requires Writable(d)
    ensures Parse(Format(d)) == Some(d)
  {
    FormatTrimmed(d);
    FormatLinesShape(d);
    SplitJoin(FormatLines(d), '\n');
    ScanFormat(d);
  }

  const MOODS: seq<string> := ["romantic", "adventurous", "relaxed", "fun"]

  /** The built-in idea of each mood, in the order of `MOODS`. */
  const FALLBACK_IDEAS: seq<IdeaData> := [
    IdeaData("Sunset Picnic", "Pack your favorite snacks and watch the sunset together at a scenic spot.",
      ["Bring a cozy blanket", "Make a playlist", "Don't forget dessert"]),
    IdeaData("Hiking Adventure", "Explore a new trail together and discover hidden gems in nature.",
      ["Check the weather", "Pack snacks and water", "Take photos at viewpoints"]),
    IdeaData("Movie Marathon Night", "Create a cozy fort, pick your favorite movies, and spend the evening cuddled up.",
      ["Prepare snacks beforehand", "Put phones away", "Take breaks to discuss"]),
    IdeaData("Game Night Challenge", "Compete in board games, video games, or card games with fun stakes.",
      ["Loser makes dinner", "Try new games", "Keep score for bragging rights"])]

  /** `fallbacks.get(mood, fallbacks["romantic"])` */
  function Fallback(mood: string): (d: IdeaData)
    ensures d.title != [] && d.description != [] && |d.tips| == 3
    ensures mood !in MOODS ==> d == FALLBACK_IDEAS[0]
  {
    FALLBACK_IDEAS[IndexOrFirst(mood, MOODS)]
  }

  /**
   * `generate_date_idea` after the model call: `reply` is what the call
   * returned (None when it failed). Whatever the reply, the idea has a title,
   * a description and at least one tip.
   */
  function DateIdeaFor(reply: Option<string>, mood: string): (d: IdeaData)
    ensures d.title != [] && d.description != [] && d.tips != []
    ensures reply.Some? && Parse(reply.value).Some? ==> d == Parse(reply.value).value
    ensures (reply.None? || Parse(reply.value).None?) ==> d == Fallback(mood)
  {
    if reply.Some? && reply.value != "" then
      match Parse(reply.value)
      case Some(parsed) => parsed
      case None => Fallback(mood)
    else
      ParseEmpty();
      Fallback(mood)
  }

  /** An empty reply (falsy in the source) would not parse either. */
  lemma ParseEmpty()
    ensures Parse("") == None
  {
    assert Strip("") == "";
    assert Split("", '\n') == [""];
    assert Step(IdeaData("", "", []), "") == IdeaData("", "", []);
    assert Scan([""], IdeaData("", "", [])) == Scan([], IdeaData("", "", []));
  }
}
