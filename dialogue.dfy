/** `DialogueParser` and `DatasetStatistics`: cleaning, the line-based "speaker: text" parser
    with its three-entry context window, the post-filter of the context/response extractor,
    the choice between the two parses, the conversational serialiser and word-count
    statistics. */
module Dialogue {
  import opened Wrappers
  import opened Text

  /** The `metadata` dictionaries the parsers and the augmenter attach. */
  datatype Metadata =
    | NoMeta
    | ContextResponseMeta
    | DialogueMeta(speaker: string)
    | AugmentedMeta(technique: string)

  datatype DialogueTurn = DialogueTurn(context: string, response: string, metadata: Metadata)

  // ---------------------------------------------------------------------------------------
  // _clean_text
  // ---------------------------------------------------------------------------------------

  /** `_clean_text`: whitespace runs become one space, backslashes become spaces, and the
      result is stripped. */
  function CleanText(s: string): string {
    Strip(ReplaceChar(CollapseSpaces(s), '\\', ' '))
  }

  /** The cleaned text has no backslash, no leading or trailing whitespace, and no whitespace
      other than plain spaces. */
  lemma CleanTextShape(s: string)
    ensures '\\' !in CleanText(s)
    ensures Stripped(CleanText(s))
    ensures forall i :: 0 <= i < |CleanText(s)| && IsSpace(CleanText(s)[i]) ==> CleanText(s)[i] == ' '
  {
    var t := ReplaceChar(CollapseSpaces(s), '\\', ' ');
    StripFacts(t);
  }

  /** Cleaning changes whitespace only, and drops the backslashes: the other characters stay,
      in order. */
  lemma CleanKeepsText(s: string)
    ensures NonSpace(CleanText(s)) == RemoveChar(NonSpace(s), '\\')
  {
    var c := CollapseSpaces(s);
    NonSpaceCollapse(s);
    NonSpaceReplace(c, '\\');
    NonSpaceStrip(ReplaceChar(c, '\\', ' '));
  }

  /** Spaces that replace backslashes are not collapsed again, so a cleaned text can hold two
      spaces in a row. */
  lemma CleanKeepsDoubleSpace()
    ensures CleanText("a\\ b") == "a  b"
  {
    var s := "a\\ b";
    CollapseExample();
    var t := ReplaceChar(s, '\\', ' ');
    assert t == "a  b";
    assert Stripped(t);
    StripFacts(t);
  }

  /** The example has no run of two whitespace characters, so collapsing leaves it alone. */
  lemma CollapseExample()
    ensures CollapseSpaces("a\\ b") == "a\\ b"
  {
    var s := "a\\ b";
    assert CollapseSpaces(s[3..]) == "b";
    assert SpaceLength(s[2..]) == 1;
    assert CollapseSpaces(s[2..]) == " b";
  }

  // ---------------------------------------------------------------------------------------
  // The speaker pattern
  // ---------------------------------------------------------------------------------------

  /** The first index from `i` on that holds a colon and is not the last index. */
  function SpeakerColon(line: string, i: nat): (r: Option<nat>)
    ensures r.Some? ==> i <= r.value < |line| - 1 && line[r.value] == ':'
    ensures r.Some? ==> forall j :: i <= j < r.value ==> line[j] != ':'
    ensures r.None? ==> forall j :: i <= j < |line| - 1 ==> line[j] != ':'
    decreases |line| - i
  {
    if i + 1 >= |line| then None
    else if line[i] == ':' then Some(i)
    else SpeakerColon(line, i + 1)
  }

  /** What `\s*(.+?)$` captures from the text after the colon: that text without its
      leading whitespace, or its last character when it is whitespace only. */
  function DialoguePart(rest: string): string
    requires rest != []
  {
    var l := LStrip(rest);
    if l != [] then l else [rest[|rest| - 1]]
  }

  /** `dialogue_pattern.match(line)` for `^(.+?):\s*(.+?)$`: it matches iff some colon at
      index 1 or later is not the last character; the speaker is everything before the first
      such colon. */
  function MatchSpeaker(line: string): Option<(string, string)> {
    match SpeakerColon(line, 1)
    case Some(i) => Some((line[..i], DialoguePart(line[i + 1..])))
    case None => None
  }

  /** The pattern fails only on a line without a colon between its first and last
      characters; otherwise the speaker runs up to the first such colon, and the dialogue is
      captured from the text after it. */
  lemma MatchSpeakerSpec(line: string)
    ensures MatchSpeaker(line).None? ==> forall i :: 1 <= i < |line| - 1 ==> line[i] != ':'
    ensures MatchSpeaker(line).Some? ==>
              var i := |MatchSpeaker(line).value.0|;
              && 1 <= i < |line| - 1 && line[i] == ':'
              && (forall j :: 1 <= j < i ==> line[j] != ':')
              && MatchSpeaker(line).value == (line[..i], DialoguePart(line[i + 1..]))
  {
  }

  /** On a stripped line, the speaker is not empty and the dialogue is the text after the
      colon with its leading whitespace removed, which is not empty either. */
  lemma SpeakerOfStripped(line: string)
    requires Stripped(line) && MatchSpeaker(line).Some?
    ensures var (speaker, dialogue) := MatchSpeaker(line).value;
            && speaker != [] && dialogue != [] && Stripped(dialogue)
            && dialogue == LStrip(line[|speaker| + 1..])
  {
    var i := SpeakerColon(line, 1).value;
    var rest := line[i + 1..];
    assert rest[|rest| - 1] == line[|line| - 1];
    LStripKeepsLast(rest);
  }

  // ---------------------------------------------------------------------------------------
  // _parse_dialogue_format
  // ---------------------------------------------------------------------------------------

  /** What one line is to `_parse_dialogue_format` once stripped: empty, a speaker line with
      its cleaned dialogue, or any other text. */
  datatype Line = Blank | Said(speaker: string, dialogue: string) | Other(text: string)

  /** The per-line work of the loop: strip, match the speaker pattern, clean the dialogue. */
  function Classify(raw: string): Line {
    var line := Strip(raw);
    if line == [] then Blank
    else match MatchSpeaker(line)
      case Some((speaker, said)) => Said(speaker, CleanText(said))
      case None => Other(line)
  }

  /** What every classified line satisfies: a speaker is named and its dialogue is clean; other
      text is not empty. */
  predicate WellFormedLine(l: Line) {
    match l
    case Blank => true
    case Said(speaker, dialogue) => speaker != [] && '\\' !in dialogue && Stripped(dialogue)
    case Other(text) => text != []
  }

  /** A line is blank exactly when it strips to nothing, and a speaker line exactly when its
      stripped form has a colon after its first and before its last character; the speaker is
      the text before the first such colon and the dialogue the cleaned text after it. */
  lemma ClassifySpec(raw: string)
    ensures Classify(raw).Blank? <==> Strip(raw) == []
    ensures Classify(raw).Said? <==> exists i :: 1 <= i < |Strip(raw)| - 1 && Strip(raw)[i] == ':'
    ensures Classify(raw).Said? ==>
              var line := Strip(raw);
              var i := |Classify(raw).speaker|;
              && 1 <= i < |line| - 1 && line[i] == ':' && (forall j :: 1 <= j < i ==> line[j] != ':')
              && Classify(raw).speaker == line[..i]
              && Classify(raw).dialogue == CleanText(LStrip(line[i + 1..]))
    ensures Classify(raw).Other? ==> Classify(raw).text == Strip(raw)
  {
    var line := Strip(raw);
    MatchSpeakerSpec(line);
    if line != [] && MatchSpeaker(line).Some? {
      SpeakerOfStripped(line);
      var i := |MatchSpeaker(line).value.0|;
      assert 1 <= i < |line| - 1 && line[i] == ':';
    }
  }

  lemma ClassifyWellFormed(raw: string)
    ensures WellFormedLine(Classify(raw))
  {
    var line := Strip(raw);
    if line != [] && MatchSpeaker(line).Some? {
      SpeakerOfStripped(line);
      CleanTextShape(MatchSpeaker(line).value.1);
    }
  }

  /** The classification of each line. */
  function Classified(lines: seq<string>): (ls: seq<Line>)
    ensures |ls| == |lines|
  {
    seq(|lines|, k requires 0 <= k < |lines| => Classify(lines[k]))
  }

  lemma ClassifiedWellFormed(lines: seq<string>)
    ensures forall k :: 0 <= k < |lines| ==> WellFormedLine(Classified(lines)[k])
  {
    forall k | 0 <= k < |lines|
      ensures WellFormedLine(Classified(lines)[k])
    {
      ClassifyWellFormed(lines[k]);
    }
  }

  /** The loop state of `_parse_dialogue_format`: the turns so far and `context_buffer`. */
  datatype ParseState = ParseState(turns: seq<DialogueTurn>, buffer: seq<string>)

  /** `b[-n:]`. */
  function LastN(b: seq<string>, n: nat): (r: seq<string>)
    ensures |r| == (if |b| < n then |b| else n) && r == b[|b| - |r|..]
  {
    if |b| <= n then b else b[|b| - n..]
  }

  /** One line of `_parse_dialogue_format`: a speaker line is added to the buffer, and makes a
      turn from the last three entries before it when the buffer was not empty and the
      dialogue is not; other text is added only once the buffer has started. */
  function Step(st: ParseState, l: Line): ParseState {
    match l
    case Blank => st
    case Said(speaker, dialogue) =>
      var turns := if st.buffer != [] && dialogue != [] then
                     st.turns + [DialogueTurn(Join(LastN(st.buffer, 3), " "), dialogue, DialogueMeta(speaker))]
                   else st.turns;
      ParseState(turns, st.buffer + [speaker + ": " + dialogue])
    case Other(text) =>
      if st.buffer != [] then ParseState(st.turns, st.buffer + [text]) else st
  }

  /** The state after the given lines, one after another. */
  function ParseLines(ls: seq<Line>): ParseState {
    if ls == [] then ParseState([], []) else Step(ParseLines(ls[..|ls| - 1]), ls[|ls| - 1])
  }

  /** `_parse_dialogue_format`. */
  method ParseDialogueFormat(content: string) returns (turns: seq<DialogueTurn>)
    ensures turns == ParseLines(Classified(SplitLines(Strip(content)))).turns
  {
    var lines := SplitLines(Strip(content));
    ghost var ls := Classified(lines);
    turns := [];
    var buffer: seq<string> := [];
    var i := 0;
    while i < |lines|
      invariant 0 <= i <= |lines|
      invariant ParseState(turns, buffer) == ParseLines(ls[..i])
    {
      ParseLinesNext(ls, i);
      var l := Classify(lines[i]);
      assert ls[i] == l;
      ghost var next := Step(ParseState(turns, buffer), l);
      match l {
        case Blank =>
        case Said(speaker, dialogue) =>
          if buffer != [] && dialogue != [] {
            var context := Join(LastN(buffer, 3), " ");
            turns := turns + [DialogueTurn(context, dialogue, DialogueMeta(speaker))];
          }
          buffer := buffer + [speaker + ": " + dialogue];
        case Other(text) =>
          if buffer != [] {
            buffer := buffer + [text];
          }
      }
      assert ParseState(turns, buffer) == next;
      i := i + 1;
    }
    assert ls[..i] == ls;
  }

  /** The state after one more line is one `Step` further. */
  lemma ParseLinesNext(ls: seq<Line>, i: nat)
    requires i < |ls|
    ensures ParseLines(ls[..i + 1]) == Step(ParseLines(ls[..i]), ls[i])
  {
    assert ls[..i + 1][..i] == ls[..i];
  }

  /** The number of speaker lines. */
  function MatchCount(ls: seq<Line>): nat {
    if ls == [] then 0 else MatchCount(ls[..|ls| - 1]) + (if ls[|ls| - 1].Said? then 1 else 0)
  }

  lemma {:induction false} MatchCountZero(ls: seq<Line>)
    ensures MatchCount(ls) == 0 <==> forall k :: 0 <= k < |ls| ==> !ls[k].Said?
  {
    if ls != [] {
      var init := ls[..|ls| - 1];
      MatchCountZero(init);
      assert forall k :: 0 <= k < |init| ==> init[k] == ls[k];
    }
  }

  /** Every buffer entry is non-empty. */
  lemma {:induction false} BufferEntries(ls: seq<Line>)
    requires forall k :: 0 <= k < |ls| ==> WellFormedLine(ls[k])
    ensures forall k :: 0 <= k < |ParseLines(ls).buffer| ==> ParseLines(ls).buffer[k] != []
  {
    if ls != [] {
      var init := ls[..|ls| - 1];
      assert forall k :: 0 <= k < |init| ==> init[k] == ls[k];
      BufferEntries(init);
      assert WellFormedLine(ls[|ls| - 1]);
    }
  }

  /** The first speaker line never yields a turn: there is at least one fewer turn than
      speaker lines. */
  lemma {:induction false} TurnCount(ls: seq<Line>)
    ensures |ParseLines(ls).turns| + (if MatchCount(ls) > 0 then 1 else 0) <= MatchCount(ls)
  {
    if ls != [] {
      var init := ls[..|ls| - 1];
      TurnCount(init);
      BufferEmpty(init);
    }
  }

  /** The buffer stays empty, and no turn is made, until a speaker line. */
  lemma {:induction false} BufferEmpty(ls: seq<Line>)
    ensures ParseLines(ls).buffer == [] <==> MatchCount(ls) == 0
    ensures ParseLines(ls).buffer == [] ==> ParseLines(ls).turns == []
  {
    if ls != [] {
      BufferEmpty(ls[..|ls| - 1]);
    }
  }

  /** A turn whose context is a window of the buffer and whose response is the entry right
      after that window: the window is three entries long, or starts at the first entry. */
  ghost predicate Windowed(t: DialogueTurn, buffer: seq<string>) {
    t.metadata.DialogueMeta? &&
    exists a, b :: 0 <= a < b < |buffer| && (b - a == 3 || (a == 0 && b < 3))
      && t.context == Join(buffer[a..b], " ")
      && buffer[b] == t.metadata.speaker + ": " + t.response
  }

  lemma WindowedGrows(t: DialogueTurn, buffer: seq<string>, more: seq<string>)
    requires Windowed(t, buffer)
    ensures Windowed(t, buffer + more)
  {
    var a, b :| 0 <= a < b < |buffer| && (b - a == 3 || (a == 0 && b < 3))
      && t.context == Join(buffer[a..b], " ") && buffer[b] == t.metadata.speaker + ": " + t.response;
    assert (buffer + more)[a..b] == buffer[a..b];
    assert (buffer + more)[b] == buffer[b];
  }

  /** A turn as the dialogue parse makes it: a non-empty cleaned response, a non-empty context,
      and a window of the buffer. */
  ghost predicate GoodTurn(t: DialogueTurn, buffer: seq<string>) {
    t.response != [] && '\\' !in t.response && Stripped(t.response) && t.context != [] && Windowed(t, buffer)
  }

  /** Every turn of the dialogue parse has a non-empty cleaned response, a non-empty context,
      and the speaker's name; its context is the last (at most) three buffer entries before
      the line that produced it, joined by single spaces. */
  lemma {:induction false} TurnsWellFormed(ls: seq<Line>)
    requires forall k :: 0 <= k < |ls| ==> WellFormedLine(ls[k])
    ensures forall k :: 0 <= k < |ParseLines(ls).turns| ==> GoodTurn(ParseLines(ls).turns[k], ParseLines(ls).buffer)
  {
    if ls != [] {
      var init := ls[..|ls| - 1];
      assert forall k :: 0 <= k < |init| ==> init[k] == ls[k];
      TurnsWellFormed(init);
      BufferEntries(init);
      var st := ParseLines(init);
      var st' := ParseLines(ls);
      var more := st'.buffer[|st.buffer|..];
      assert st'.turns[..|st.turns|] == st.turns;
      assert st'.buffer == st.buffer + more;
      forall k | 0 <= k < |st.turns|
        ensures GoodTurn(st'.turns[k], st'.buffer)
      {
        WindowedGrows(st.turns[k], st.buffer, more);
      }
      if |st'.turns| > |st.turns| {
        NewTurn(st, ls[|ls| - 1]);
      }
    }
  }

  /** The turn a speaker line adds is well formed in the new buffer. */
  lemma NewTurn(st: ParseState, l: Line)
    requires WellFormedLine(l) && |Step(st, l).turns| > |st.turns|
    requires forall k :: 0 <= k < |st.buffer| ==> st.buffer[k] != []
    ensures GoodTurn(Step(st, l).turns[|st.turns|], Step(st, l).buffer)
  {
    var st' := Step(st, l);
    var t := st'.turns[|st.turns|];
    var n := |st.buffer|;
    var a := if n < 3 then 0 else n - 3;
    assert st.buffer[a..n] == LastN(st.buffer, 3);
    assert st'.buffer[a..n] == st.buffer[a..n];
    assert st'.buffer[n] == t.metadata.speaker + ": " + t.response;
    JoinNonEmpty(st.buffer[a..n], " ");
  }

  lemma JoinNonEmpty(parts: seq<string>, sep: string)
    requires |parts| > 0 && parts[0] != []
    ensures Join(parts, sep) != []
  {
  }

  // ---------------------------------------------------------------------------------------
  // _parse_context_response and parse_file
  // ---------------------------------------------------------------------------------------

  /** The extractor's `(context, response)` matches, both parts cleaned. */
  function CleanPairs(matches: seq<(string, string)>): (r: seq<(string, string)>)
    ensures |r| == |matches|
  {
    seq(|matches|, k requires 0 <= k < |matches| => (CleanText(matches[k].0), CleanText(matches[k].1)))
  }

  /** The turns `_parse_context_response` keeps from the cleaned pairs: those with both parts
      non-empty. */
  function KeepPairs(pairs: seq<(string, string)>): seq<DialogueTurn> {
    if pairs == [] then []
    else
      var (c, r) := pairs[|pairs| - 1];
      KeepPairs(pairs[..|pairs| - 1]) + (if c != [] && r != [] then [DialogueTurn(c, r, ContextResponseMeta)] else [])
  }

  /** Every kept turn has a non-empty context and response taken from one pair; a pair is kept
      exactly when both its parts are non-empty; no more turns than pairs. */
  lemma KeepPairsProperties(pairs: seq<(string, string)>)
    ensures |KeepPairs(pairs)| <= |pairs|
    ensures forall k :: 0 <= k < |KeepPairs(pairs)| ==>
              var t := KeepPairs(pairs)[k];
              && t.context != [] && t.response != [] && t.metadata == ContextResponseMeta
              && exists j :: 0 <= j < |pairs| && (t.context, t.response) == pairs[j]
    ensures forall j :: 0 <= j < |pairs| ==>
              (pairs[j].0 != [] && pairs[j].1 != [] <==> DialogueTurn(pairs[j].0, pairs[j].1, ContextResponseMeta) in KeepPairs(pairs))
  {
    KeepPairsKept(pairs);
    KeepPairsComplete(pairs);
    var all := KeepPairs(pairs);
    forall j | 0 <= j < |pairs|
      ensures pairs[j].0 != [] && pairs[j].1 != [] <==> DialogueTurn(pairs[j].0, pairs[j].1, ContextResponseMeta) in all
    {
      var t := DialogueTurn(pairs[j].0, pairs[j].1, ContextResponseMeta);
      if t in all {
        var k :| 0 <= k < |all| && all[k] == t;
      }
    }
  }

  /** What each kept turn is, and that there are no more of them than pairs. */
  lemma {:induction false} KeepPairsKept(pairs: seq<(string, string)>)
    ensures |KeepPairs(pairs)| <= |pairs|
    ensures forall k :: 0 <= k < |KeepPairs(pairs)| ==>
              var t := KeepPairs(pairs)[k];
              && t.context != [] && t.response != [] && t.metadata == ContextResponseMeta
              && exists j :: 0 <= j < |pairs| && (t.context, t.response) == pairs[j]
  {
    if pairs != [] {
      var init := pairs[..|pairs| - 1];
      KeepPairsKept(init);
      var prev, all := KeepPairs(init), KeepPairs(pairs);
      forall k | 0 <= k < |all|
        ensures all[k].context != [] && all[k].response != [] && all[k].metadata == ContextResponseMeta
        ensures exists j :: 0 <= j < |pairs| && (all[k].context, all[k].response) == pairs[j]
      {
        if k < |prev| {
          assert all[k] == prev[k];
          var j :| 0 <= j < |init| && (prev[k].context, prev[k].response) == init[j];
          assert init[j] == pairs[j];
        } else {
          assert (all[k].context, all[k].response) == pairs[|pairs| - 1];
        }
      }
    }
  }

  /** Every pair with both parts non-empty is kept. */
  lemma {:induction false} KeepPairsComplete(pairs: seq<(string, string)>)
    ensures forall j :: 0 <= j < |pairs| && pairs[j].0 != [] && pairs[j].1 != [] ==>
              DialogueTurn(pairs[j].0, pairs[j].1, ContextResponseMeta) in KeepPairs(pairs)
  {
    if pairs != [] {
      var init := pairs[..|pairs| - 1];
      KeepPairsComplete(init);
      assert forall j :: 0 <= j < |init| ==> init[j] == pairs[j];
    }
  }

  /** The post-filter loop of `_parse_context_response` over the extractor's matches. */
  method ParseContextResponse(matches: seq<(string, string)>) returns (turns: seq<DialogueTurn>)
    ensures turns == KeepPairs(CleanPairs(matches))
  {
    ghost var pairs := CleanPairs(matches);
    turns := [];
    var i := 0;
    while i < |matches|
      invariant 0 <= i <= |matches|
      invariant turns == KeepPairs(pairs[..i])
    {
      var context := CleanText(matches[i].0);
      var response := CleanText(matches[i].1);
      KeepPairsNext(pairs, i, context, response);
      if context != [] && response != [] {
        turns := turns + [DialogueTurn(context, response, ContextResponseMeta)];
      }
      assert turns == KeepPairs(pairs[..i + 1]);
      i := i + 1;
    }
    assert pairs[..i] == pairs;
  }

  /** One more pair adds its turn exactly when both its parts are non-empty. */
  lemma KeepPairsNext(pairs: seq<(string, string)>, i: nat, context: string, response: string)
    requires i < |pairs| && pairs[i] == (context, response)
    ensures context != [] && response != [] ==>
              KeepPairs(pairs[..i + 1]) == KeepPairs(pairs[..i]) + [DialogueTurn(context, response, ContextResponseMeta)]
    ensures context == [] || response == [] ==> KeepPairs(pairs[..i + 1]) == KeepPairs(pairs[..i])
  {
    assert pairs[..i + 1][..i] == pairs[..i];
  }

  /** `parse_file` on the file's `content`, given what the context/response extractor finds
      in it: the context/response turns when there are any, otherwise the dialogue parse. The
      dialogue parse is used exactly when no context/response turn survives, which the
      metadata shows. */
  method ParseFile(content: string, matches: seq<(string, string)>) returns (turns: seq<DialogueTurn>)
    ensures KeepPairs(CleanPairs(matches)) != [] ==> turns == KeepPairs(CleanPairs(matches))
    ensures KeepPairs(CleanPairs(matches)) == [] ==> turns == ParseLines(Classified(SplitLines(Strip(content)))).turns
    ensures KeepPairs(CleanPairs(matches)) == [] <==> forall k :: 0 <= k < |turns| ==> turns[k].metadata.DialogueMeta?
  {
    turns := ParseContextResponse(matches);
    KeepPairsProperties(CleanPairs(matches));
    if turns == [] {
      turns := ParseDialogueFormat(content);
      var ls := Classified(SplitLines(Strip(content)));
      ClassifiedWellFormed(SplitLines(Strip(content)));
      TurnsWellFormed(ls);
    } else {
      assert !turns[0].metadata.DialogueMeta?;
    }
  }

  /** Whether the extractor's marker (`context:` or `response:`, lower-case) occurs at `i`.
      The copy of the parser at the top of the repository compiles its extractor with
      `re.IGNORECASE`, which also accepts the upper-case letters and, for `s`, U+017F (LATIN
      SMALL LETTER LONG S); the copy under `src/` matches the marker exactly. */
  predicate MarkerAt(s: string, i: nat, marker: string, ignoreCase: bool) {
    i + |marker| <= |s| &&
    forall k :: 0 <= k < |marker| ==>
      s[i + k] == marker[k] || (ignoreCase && (LowerChar(s[i + k]) == marker[k] || (marker[k] == 's' && s[i + k] == 'ſ')))
  }

  /** The case-insensitive copy accepts every marker the exact one does, and more. This is a
      fact about the marker pattern alone: `ParseFile` takes the extractor's matches as a
      parameter, so nothing connects the two. */
  lemma MarkerCase(s: string, i: nat, marker: string)
    ensures MarkerAt(s, i, marker, false) ==> MarkerAt(s, i, marker, true)
    ensures MarkerAt("Context:", 0, "context:", true) && !MarkerAt("Context:", 0, "context:", false)
    ensures MarkerAt("RESPONSE:", 0, "response:", true) && !MarkerAt("RESPONSE:", 0, "response:", false)
  {
    assert "Context:"[0] != "context:"[0];
    assert "RESPONSE:"[0] != "response:"[0];
  }

  // ---------------------------------------------------------------------------------------
  // to_training_format
  // ---------------------------------------------------------------------------------------

  /** The lines of the "conversational" format: three per turn. */
  function ConversationLines(turns: seq<DialogueTurn>): (lines: seq<string>)
    ensures |lines| == 3 * |turns|
  {
    if turns == [] then []
    else
      var last := turns[|turns| - 1];
      ConversationLines(turns[..|turns| - 1]) + ["Human: " + last.context, "Assistant: " + last.response, ""]
  }

  /** Turn `k` is written as lines `3k` to `3k + 2`: the context after "Human: ", the response
      after "Assistant: ", and an empty line. */
  lemma {:induction false} ConversationLinesAt(turns: seq<DialogueTurn>)
    ensures forall k :: 0 <= k < |turns| ==>
              && ConversationLines(turns)[3 * k] == "Human: " + turns[k].context
              && ConversationLines(turns)[3 * k + 1] == "Assistant: " + turns[k].response
              && ConversationLines(turns)[3 * k + 2] == ""
  {
    if turns != [] {
      var init := turns[..|turns| - 1];
      ConversationLinesAt(init);
      var lines, head := ConversationLines(turns), ConversationLines(init);
      forall k | 0 <= k < |turns|
        ensures && lines[3 * k] == "Human: " + turns[k].context
                && lines[3 * k + 1] == "Assistant: " + turns[k].response
                && lines[3 * k + 2] == ""
      {
        if k < |init| {
          assert turns[k] == init[k];
          assert lines[3 * k] == head[3 * k] && lines[3 * k + 1] == head[3 * k + 1] && lines[3 * k + 2] == head[3 * k + 2];
        }
      }
    }
  }

  /** `to_training_format` for the "conversational" format and for an unknown one. */
  method ToTrainingFormat(turns: seq<DialogueTurn>, format: string) returns (r: Result<string, string>)
    requires format != "jsonl" && format != "csv"
    ensures format == "conversational" ==> r == Ok(Join(ConversationLines(turns), "\n"))
    ensures format != "conversational" ==> r == Err("Unknown format type: " + format)
  {
    if format == "conversational" {
      var lines: seq<string> := [];
      var i := 0;
      while i < |turns|
        invariant 0 <= i <= |turns|
        invariant lines == ConversationLines(turns[..i])
      {
        assert turns[..i + 1][..i] == turns[..i];
        lines := lines + ["Human: " + turns[i].context];
        lines := lines + ["Assistant: " + turns[i].response];
        lines := lines + [""];
        i := i + 1;
      }
      assert turns[..i] == turns;
      return Ok(Join(lines, "\n"));
    } else {
      return Err("Unknown format type: " + format);
    }
  }

  /** `s` without its first `n` characters. */
  function DropPrefix(s: string, n: nat): string {
    if n <= |s| then s[n..] else []
  }

  /** Reads the `(context, response)` pairs back from the lines of a conversational text,
      three lines at a time. */
  function ReadConversation(lines: seq<string>): seq<(string, string)> {
    if |lines| < 3 then []
    else
      var n := |lines|;
      ReadConversation(lines[..n - 3]) + [(DropPrefix(lines[n - 3], 7), DropPrefix(lines[n - 2], 11))]
  }

  /** The context and response of each turn. */
  function Exchanges(turns: seq<DialogueTurn>): (r: seq<(string, string)>)
    ensures |r| == |turns|
  {
    seq(|turns|, k requires 0 <= k < |turns| => (turns[k].context, turns[k].response))
  }

  lemma {:induction false} ConversationLinesNoNewline(turns: seq<DialogueTurn>)
    requires forall k :: 0 <= k < |turns| ==> '\n' !in turns[k].context && '\n' !in turns[k].response
    ensures forall k :: 0 <= k < |ConversationLines(turns)| ==> '\n' !in ConversationLines(turns)[k]
  {
    if turns != [] {
      var init := turns[..|turns| - 1];
      ConversationLinesNoNewline(init);
      var last := turns[|turns| - 1];
      var lines := ConversationLines(turns);
      var head := ConversationLines(init);
      assert lines == head + ["Human: " + last.context, "Assistant: " + last.response, ""];
      forall k | 0 <= k < |lines|
        ensures '\n' !in lines[k]
      {
        if k < |head| {
          assert lines[k] == head[k];
        }
      }
    }
  }

  lemma DropPrefixOf(p: string, c: string)
    ensures DropPrefix(p + c, |p|) == c
  {
    assert (p + c)[|p|..] == c;
  }

  lemma ThirdOfTriple(n: nat)
    ensures (3 * n) / 3 == n
  {
  }

  /** Reading the conversational lines gives back every turn's context and response. */
  lemma {:induction false} ReadConversationLines(turns: seq<DialogueTurn>)
    ensures ReadConversation(ConversationLines(turns)) == Exchanges(turns)
  {
    if turns != [] {
      var init := turns[..|turns| - 1];
      var last := turns[|turns| - 1];
      ReadConversationLines(init);
      var lines := ConversationLines(turns);
      var human, assistant := "Human: ", "Assistant: ";
      assert lines[..|lines| - 3] == ConversationLines(init);
      assert lines[|lines| - 3] == human + last.context && lines[|lines| - 2] == assistant + last.response;
      DropPrefixOf(human, last.context);
      DropPrefixOf(assistant, last.response);
      assert Exchanges(turns) == Exchanges(init) + [(last.context, last.response)];
    }
  }

  /** When no context or response holds a newline, the conversational text splits back into
      its lines and gives back every turn's context and response. */
  lemma ConversationRoundTrip(turns: seq<DialogueTurn>)
    requires forall k :: 0 <= k < |turns| ==> '\n' !in turns[k].context && '\n' !in turns[k].response
    ensures ReadConversation(SplitLines(Join(ConversationLines(turns), "\n"))) == Exchanges(turns)
  {
    var lines := ConversationLines(turns);
    if turns == [] {
      assert Join(lines, "\n") == "";
      assert SplitLines("") == [""];
    } else {
      ConversationLinesNoNewline(turns);
      SplitLinesJoin(lines);
      ReadConversationLines(turns);
    }
  }

  // ---------------------------------------------------------------------------------------
  // calculate_stats
  // ---------------------------------------------------------------------------------------

  datatype Stats = Stats(
    totalTurns: nat,
    avgContextLength: real, avgResponseLength: real,
    maxContextLength: nat, maxResponseLength: nat,
    minContextLength: nat, minResponseLength: nat)

  function Sum(xs: seq<nat>): nat {
    if xs == [] then 0 else Sum(xs[..|xs| - 1]) + xs[|xs| - 1]
  }

  function Max(xs: seq<nat>): (m: nat)
    requires |xs| > 0
    ensures m in xs && forall k :: 0 <= k < |xs| ==> xs[k] <= m
  {
    if |xs| == 1 then xs[0]
    else
      var m := Max(xs[..|xs| - 1]);
      assert forall k :: 0 <= k < |xs| - 1 ==> xs[..|xs| - 1][k] == xs[k];
      if xs[|xs| - 1] > m then xs[|xs| - 1] else m
  }

  function Min(xs: seq<nat>): (m: nat)
    requires |xs| > 0
    ensures m in xs && forall k :: 0 <= k < |xs| ==> m <= xs[k]
  {
    if |xs| == 1 then xs[0]
    else
      var m := Min(xs[..|xs| - 1]);
      assert forall k :: 0 <= k < |xs| - 1 ==> xs[..|xs| - 1][k] == xs[k];
      if xs[|xs| - 1] < m then xs[|xs| - 1] else m
  }

  lemma ScaleMono(n: nat, a: int, b: int)
    requires a <= b
    ensures n * a <= n * b
  {
  }

  lemma Distrib(n: nat, m: int)
    ensures (n + 1) * m == n * m + m
  {
  }

  /** The sum of a list lies between its length times its minimum and its length times its
      maximum. */
  lemma {:induction false} SumBounds(xs: seq<nat>)
    requires |xs| > 0
    ensures |xs| * Min(xs) <= Sum(xs) <= |xs| * Max(xs)
  {
    if |xs| > 1 {
      var init := xs[..|xs| - 1];
      SumBounds(init);
      assert forall k :: 0 <= k < |init| ==> init[k] == xs[k];
      var n, lo, hi, last := |init|, Min(xs), Max(xs), xs[|xs| - 1];
      assert lo <= Min(init) && lo <= last && Max(init) <= hi && last <= hi;
      ScaleMono(n, lo, Min(init));
      ScaleMono(n, Max(init), hi);
      Distrib(n, lo);
      Distrib(n, hi);
      assert Sum(xs) == Sum(init) + last;
    }
  }

  /** A mean lies between its bounds. */
  lemma MeanBounds(sum: nat, n: nat, lo: nat, hi: nat)
    requires n > 0 && n * lo <= sum <= n * hi
    ensures lo as real <= sum as real / n as real <= hi as real
  {
    assert (n * lo) as real == n as real * lo as real && (n * hi) as real == n as real * hi as real;
    QuotientBounds(sum as real, n as real, lo as real, hi as real);
  }

  lemma QuotientBounds(s: real, m: real, l: real, h: real)
    requires m > 0.0 && m * l <= s <= m * h
    ensures l <= s / m <= h
  {
    DivideBelow(m * l, s, m);
    DivideBelow(s, m * h, m);
    MultipleDivided(l, m);
    MultipleDivided(h, m);
  }

  lemma MultipleDivided(x: real, m: real)
    requires m > 0.0
    ensures (m * x) / m == x
  {
  }

  /** Division by a positive number keeps the order. */
  lemma DivideBelow(x: real, y: real, m: real)
    requires m > 0.0 && x <= y
    ensures x / m <= y / m
  {
    assert y / m - x / m == (y - x) / m;
  }

  /** `len(text.split())` for each text. */
  function WordCounts(texts: seq<string>): (r: seq<nat>)
  {
    seq(|texts|, k requires 0 <= k < |texts| => |Split(texts[k])|)
  }

  function Contexts(turns: seq<DialogueTurn>): seq<string> {
    seq(|turns|, k requires 0 <= k < |turns| => turns[k].context)
  }

  function Responses(turns: seq<DialogueTurn>): seq<string> {
    seq(|turns|, k requires 0 <= k < |turns| => turns[k].response)
  }

  /** `calculate_stats`: nothing (`{}`) for no turns; otherwise the turn count and the mean,
      maximum and minimum word counts of contexts and of responses (the mean being the sum over
      the count), with min <= avg <= max. */
  function CalculateStats(turns: seq<DialogueTurn>): (r: Option<Stats>)
    ensures r.None? <==> turns == []
    ensures r.Some? ==>
              var s := r.value;
              var cs, rs := WordCounts(Contexts(turns)), WordCounts(Responses(turns));
              && s.totalTurns == |turns|
              && s.avgContextLength == Sum(cs) as real / |turns| as real
              && s.avgResponseLength == Sum(rs) as real / |turns| as real
              && s.minContextLength in cs && s.maxContextLength in cs
              && s.minResponseLength in rs && s.maxResponseLength in rs
              && (forall k :: 0 <= k < |turns| ==> s.minContextLength <= cs[k] <= s.maxContextLength)
              && (forall k :: 0 <= k < |turns| ==> s.minResponseLength <= rs[k] <= s.maxResponseLength)
              && s.minContextLength as real <= s.avgContextLength <= s.maxContextLength as real
              && s.minResponseLength as real <= s.avgResponseLength <= s.maxResponseLength as real
  {
    if turns == [] then None
    else
      var cs, rs := WordCounts(Contexts(turns)), WordCounts(Responses(turns));
      var n := |turns|;
      SumBounds(cs);
      SumBounds(rs);
      MeanBounds(Sum(cs), n, Min(cs), Max(cs));
      MeanBounds(Sum(rs), n, Min(rs), Max(rs));
      Some(Stats(n, Sum(cs) as real / n as real, Sum(rs) as real / n as real, Max(cs), Max(rs), Min(cs), Min(rs)))
  }
}
