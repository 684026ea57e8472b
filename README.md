# DLA in Dafny

A model, with proofs, of the deterministic core of DLA. DLA is a toolkit that trains
dialogue-generation models on parsed conversations and on events from a simulated football match.
The model covers four parts.

- **The football simulator** (`src/football_simulation.py`):
  - `PhysicsEngine`: the distance from a point to a passing lane, and the first defender close
    enough to intercept.
  - `SetPieceManager`: where the ball left the pitch, and how a corner or goal kick repositions
    the ball and the players.
  - `MatchSimulator`: ball, possession and game state, with one logged event per step.
  - `create_sample_team`.
  - Modules `Geometry`, `Physics`, `Entities`, `SetPieces` and `Match`.
- **The tokenizer and sequence utilities** (`src/utils.py`):
  - the word tokenizer with its four reserved ids, text-to-ids encoding and decoding;
  - `pad_sequences`, `create_batches` and the n-gram diversity score;
  - modules `Tokens`, `Sequences` and `Counting`.
- **The dialogue parser** (`src/data_processor.py`, and its near-copy `dialogue_parser.py`):
  - text cleaning and the line-based "speaker: text" parser with its three-entry context
    window;
  - the post-filter of the context/response parse and the choice between the two parses;
  - the conversational serialiser and word-count statistics;
  - modules `Text` and `Dialogue`.
- **The enhanced processor** (`src/enhanced_data_processor.py`):
  - the configuration defaults and the choice of parser by file extension;
  - the quality filters, de-duplication, frequency-ranked vocabulary building and
    context-shuffle augmentation;
  - module `Enhanced`.

Python's `dict`, `list` and `str` become Dafny maps, sequences and strings. Python's
`None` and its exceptions become `Option` and `Result` (module `Wrappers`). Positions and
ratios are exact `real`s.

Randomness becomes explicit parameters:
- every `np.random.random()` / `np.random.uniform` draw is a unit draw in `[0, 1)`, scaled as
  numpy scales it;
- `np.random.permutation` is any permutation of the indices;
- `random.sample` is a prefix of such a permutation;
- `random.shuffle` is a permutation of the shuffled words.

Objects whose fields the source updates in place are classes:
- `Team`, whose roster positions change at a corner;
- `MatchSimulator`;
- `Tokenizer`;
- the enhanced processor's vocabulary state (`Enhanced.Processor`).

The loops of the source are methods proved equal to specification functions. The properties
are stated about those functions.

Two behaviours of the match code, as modelled:
- Interception takes the first defender in roster order whose distance to the passing lane is
  strictly below the radius (`src/football_simulation.py`, lines 74-88).
- A step records at most one of the results `INTERCEPTED`, `SUCCESS`, `SHOT` and `DRIBBLE`; an unknown action, or one without a target, records none.

## Model

| member | source | states |
|---|---|---|
| Geometry.Sq | src/football_simulation.py:44-56 | a square is never negative, and positive away from zero |
| Geometry.NormSq | src/football_simulation.py:44-46 | a squared length is never negative, and is zero only for the zero vector |
| Geometry.Clamp01 | src/football_simulation.py:50 | `np.clip(t, 0, 1)` lies in [0, 1], and is `t` when `t` already lies there |
| Physics.DistanceSqToSegment | src/football_simulation.py:26-56 | the squared distance from a point to a segment is never negative |
| Physics.ClosestParameter | src/football_simulation.py:48-50 | the clamped projection parameter lies in [0, 1] |
| Physics.DegenerateCase | src/football_simulation.py:45-46 | a segment of length zero is measured to its start point |
| Physics.DegenerateSegment | src/football_simulation.py:45-46 | when `a == b` the distance is the distance from `p` to `a` |
| Physics.ProperCase | src/football_simulation.py:48-56 | for a segment of positive length the distance is to the point of the clamped projection |
| Physics.DistanceAttained | src/football_simulation.py:48-56 | the distance is attained at a point of the segment |
| Physics.PointOnSegment | src/football_simulation.py:26-56 | every point of the segment is at distance zero |
| Physics.BeyondStart | src/football_simulation.py:48-50 | a point whose projection falls before `a` is measured to `a` |
| Physics.BeyondEnd | src/football_simulation.py:48-50 | a point whose projection falls beyond `b` is measured to `b` |
| Physics.DistanceIsMinimal | src/football_simulation.py:26-56 | no point of the segment is nearer than the computed distance |
| Physics.DistanceSymmetric | src/football_simulation.py:26-56 | swapping the ends of the segment leaves the distance unchanged |
| Physics.InLaneMatchesRootComparison | src/football_simulation.py:84-85 | comparing squared distances decides `dist < radius` exactly as the square root does |
| Physics.FirstInterceptorFrom | src/football_simulation.py:75-87 | the index found is the first defender, from the start index on, strictly within the radius; none means no such defender |
| Physics.Interception | src/football_simulation.py:59-89 | the answer is `(True, d)` iff some defender is strictly within the radius, with `d` the first in list order; otherwise `(False, None)`, which includes the empty list |
| Physics.CheckInterception | src/football_simulation.py:75-89 | the scanning loop returns the answer `Interception` specifies |
| Physics.InterceptionIsFirstInLane | src/football_simulation.py:75-87 | when defender `i` is the first within the radius, the answer is `(True, defenders[i])` |
| Entities.Team.constructor | src/football_simulation.py:189-192 | a team holds the name and roster it was given |
| SetPieces.CheckBoundaries | src/football_simulation.py:105-130 | OPEN_PLAY iff the ball lies in [0,105]x[0,68], bounds included; otherwise beyond the far goal line the coin gives GOAL_KICK or CORNER, a ball behind the near goal line gives CORNER, and the rest give THROW_IN, with the x tests taking precedence |
| SetPieces.Uniform | src/football_simulation.py:155 | a scaled draw lies in `[lo, hi)` |
| SetPieces.BoxPosition | src/football_simulation.py:155 | a drawn box position lies in [95,104]x[20,48], which is on the pitch |
| SetPieces.SpotOnPitch | src/football_simulation.py:144-169 | the returned ball position is on the pitch: a corner flag `[105, 0]` or `[105, 68]`, `[5, 34]` for a goal kick, and `[0, 0]` for every other state, a throw-in included |
| SetPieces.ScrambleAttackers | src/football_simulation.py:153-155 | the attacking roster keeps its length |
| SetPieces.SetUpDefenders | src/football_simulation.py:157-161 | the defending roster keeps its length |
| SetPieces.ScrambleAttackersEffect | src/football_simulation.py:153-155 | only positions change; goalkeepers stay put and every other attacker ends in the box |
| SetPieces.SetUpDefendersEffect | src/football_simulation.py:157-161 | only positions change; defending goalkeepers go to `[104, 34]` and the others into the box |
| SetPieces.DefendersOverwriteAttackers | src/football_simulation.py:153-161 | when one team is both attacker and defender, only the defending pass's draws matter |
| SetPieces.ScrambleRoster | src/football_simulation.py:153-155 | the attacking loop leaves the roster `ScrambleAttackers` describes |
| SetPieces.SetUpRoster | src/football_simulation.py:157-161 | the defending loop leaves the roster `SetUpDefenders` describes |
| SetPieces.ResolveSetPiece | src/football_simulation.py:132-169 | returns the set-piece spot; a corner moves the attackers and then the defenders, and the defenders' pass sees the attackers' pass when both are one team; no other state moves anyone |
| Match.ActionOutcome | src/football_simulation.py:248-272 | a result is recorded iff the action is PASS, SHOOT or DRIBBLE with a target; a turnover happens iff a PASS is intercepted, and then the ball goes to the first defender in the lane; a pass not intercepted records SUCCESS, a shot SHOT and a dribble DRIBBLE; otherwise a handled action puts the ball at the target, and an unhandled one leaves it |
| Match.InterceptedBallNearLane | src/football_simulation.py:254-257 | after an interception the ball lies within the radius of the passing lane |
| Match.BallSettlesOnPitch | src/football_simulation.py:275-287 | whatever the action, the ball ends the step on the pitch |
| Match.MatchSimulator.constructor | src/football_simulation.py:217-224 | a new match has the ball at `[52.5, 34]`, home in possession, open play and an empty log |
| Match.MatchSimulator.DefendingIsOpponent | src/football_simulation.py:245 | the defending team is one of the two teams; it is the one not in possession when the teams differ as records, and the away team when they are equal |
| Match.MatchSimulator.SimulateStep | src/football_simulation.py:226-295 | one event is appended. It records the action, the ball, possession and game state from before the step, the result and the interceptor. Possession changes only on an interception. The new game state is the boundary check of the post-action ball: a set piece resolves with the new possessor attacking and the earlier defender defending, and OPEN_PLAY is restored otherwise. The ball ends on the pitch, and the event records the final ball and possessor |
| Match.MatchSimulator.PlayAction | src/football_simulation.py:245-272 | the action branch changes only ball and possession, as `ActionOutcome` says, against the team defending before the action |
| Match.MatchSimulator.StopPlay | src/football_simulation.py:275-287 | the boundary branch sets the game state to the boundary check's result, moves the ball to the set-piece spot off the pitch, and resolves the set piece |
| Match.MatchSimulator.GetTrainingData | src/football_simulation.py:297-299 | the log is returned as it is |
| Match.MatchSimulator.Reset | src/football_simulation.py:301-306 | the ball is back at `[52.5, 34]`, with home in possession, OPEN_PLAY and an empty log; player positions are not touched |
| Match.FieldRole | src/football_simulation.py:326-334 | field players 0-3 are DEF, 4-6 MF, the rest FWD, and none is GK |
| Match.XRange | src/football_simulation.py:328-334 | the x interval for every role lies inside the pitch |
| Match.Goalkeeper | src/football_simulation.py:318-322 | the goalkeeper is named `<name>_GK` and stands at `[5, 34]` for "Home" and `[100, 34]` otherwise, with the default skill |
| Match.FieldPlayer | src/football_simulation.py:336-343 | field player `i` is named `<name>_P<i+1>`, has its role, x in its role's range, y in [10, 58) and skill in [0.3, 0.8) |
| Match.CreateSampleTeam | src/football_simulation.py:313-345 | the new team holds the sampled roster under the given name |
| Match.SampleRosterShape | src/football_simulation.py:313-345 | the roster has `num_players` players (one when fewer are asked for); the goalkeeper is first and the only one; the roles follow the 4-3-rest pattern |
| Match.SampleRosterOnPitch | src/football_simulation.py:318-343 | every sampled player stands on the pitch with a skill in [0.3, 0.8) |
| Match.SampleRosterNamesDistinct | src/football_simulation.py:318-343 | no two sampled players share a name |
| Tokens.SpacePunct | src/utils.py:93 | every character of the spaced text is a space or a character of the input |
| Tokens.SpacePunctNonSpace | src/utils.py:93 | spacing punctuation only adds spaces: the non-whitespace characters are those of the input, all of them and in order |
| Tokens.SpacePunctPadded | src/utils.py:93 | afterwards every punctuation mark has a space on both sides |
| Tokens.TokenShape | src/utils.py:88-95 | every token is a non-empty run of non-whitespace without upper-case letters, and a token holding one of `? . ! , '` is that mark alone |
| Tokens.TokensOfText | src/utils.py:88-95 | the tokens run together are exactly the lower-cased text without its whitespace, so no character is lost, added or reordered |
| Tokens.TokensNotSpecial | src/utils.py:88-95 | no token is a reserved word |
| Tokens.CountTextsCounts | src/utils.py:65-67 | after counting, a word's count has grown by its number of occurrences among all texts' tokens |
| Tokens.CountTextsKeys | src/utils.py:65-67 | counting keeps the counter well formed and adds only tokens of the texts |
| Tokens.IndexMapAt | src/utils.py:80-81 | distinct words get consecutive ids from the base, and nothing else gets one |
| Tokens.WordMapAt | src/utils.py:80-82 | the ids from the base name the words in order, and nothing else |
| Tokens.SpecialsInverse | src/utils.py:41-49 | the reserved tables map `<PAD>`, `<START>`, `<END>`, `<UNK>` to 0-3 and are inverse to each other |
| Tokens.IndexWordInverse | src/utils.py:80-82 | numbering distinct words gives inverse tables |
| Tokens.FitTables | src/utils.py:47-82 | the reserved tables extended with words numbered from 4 are inverse, keep the reserved ids, and name the words in order |
| Tokens.SelectionFromTexts | src/utils.py:65-77 | the selected words are not reserved, and each carries its number of occurrences |
| Tokens.FreshFit | src/utils.py:36-84 | one fit on a new tokenizer: the tables are inverse, the reserved ids are kept, the selected words take ids 4, 5, ... in order, each counted at least `min_freq` times, counts do not increase along the ids, and at most `vocab_size - 4` words are added |
| Tokens.Tokenizer.constructor | src/utils.py:36-53 | a new tokenizer holds exactly the reserved tables, which are inverse, and no counts |
| Tokens.Tokenizer.FitOnTexts | src/utils.py:55-84 | counts accumulate over calls; the words selected from the accumulated counts are numbered from 4 over the existing tables; the vocabulary is marked built |
| Tokens.Tokenizer.CountAll | src/utils.py:65-67 | the counting loop adds every token of every text |
| Tokens.Tokenizer.AssignIds | src/utils.py:80-82 | the numbering loop writes the word at 4, 5, ... into both tables |
| Tokens.Tokenizer.TextToSequence | src/utils.py:97-114 | one id per token, UNK for unknown tokens; with `add_start_end` the ids sit between START and END, two more than the token count |
| Tokens.Tokenizer.WordOfIdOf | src/utils.py:108-129 | with inverse tables, a token decodes from its id to itself, or to `<UNK>` when it is out of vocabulary |
| Tokens.Tokenizer.DecodeIds | src/utils.py:108-128 | the words of an encoding are the tokens, with unknown ones as `<UNK>`, between the START and END markers when asked |
| Tokens.Tokenizer.DecodeEncode | src/utils.py:97-129 | decoding an encoding gives the tokens joined by single spaces, each out-of-vocabulary token as `<UNK>`, with no trace of START or END |
| Tokens.Visible | src/utils.py:128 | the kept words are those other than PAD, START and END, taken from the input |
| Tokens.VisibleOfPlain | src/utils.py:128 | words with no PAD, START or END among them are kept as they are |
| Sequences.PadRow | src/utils.py:146-158 | a row has `maxlen` ids: with 'post', the first ids of the sequence then zeros; otherwise zeros then the last ids |
| Sequences.PadRowRecovers | src/utils.py:146-158 | a sequence that fits is recovered from its row beside zeros; a longer one keeps its first (post) or last `maxlen` ids |
| Sequences.PadSequences | src/utils.py:132-160 | the matrix has one row of `maxlen` ids per sequence, each its padded row |
| Sequences.WriteRow | src/utils.py:147-158 | writing one row leaves the other rows unchanged |
| Sequences.PermutationBounds | src/utils.py:176 | a permutation of `0 .. n-1` has n indices, all in range |
| Sequences.PermutePreserves | src/utils.py:175-177 | indexing by a permutation keeps the multiset of items |
| Sequences.NumBatchesIsCeiling | src/utils.py:179-189 | the number of batches is the ceiling of n over the batch size |
| Sequences.CreateBatches | src/utils.py:163-191 | the batches number `ceil(n/bs)`; all are full except the last, which holds `n mod bs` items when that is not zero; together they are the data, or its permutation when shuffled, so the multiset of items is kept |
| Sequences.Split | src/utils.py:179-189 | the loop cuts full slices, then the rest, and together they are the data |
| Sequences.SliceBound | src/enhanced_data_processor.py:474 | a Python slice bound lies within the length |
| Sequences.NGrams | src/utils.py:261-263 | a sequence of length L has `L - n + 1` n-grams, or none |
| Sequences.NGramsAreWindows | src/utils.py:261-263 | the n-grams are the length-n windows |
| Sequences.NoNGrams | src/utils.py:258-266 | there are no n-grams exactly when every sequence is shorter than n |
| Sequences.ElemsCard | src/utils.py:268 | a list has at most as many distinct items as entries, and exactly as many iff they are distinct |
| Sequences.RatioBounds | src/utils.py:265-271 | the score is 0 iff there are no n-grams, otherwise lies in (0, 1], and is 1 iff no n-gram repeats |
| Sequences.CalculateDiversity | src/utils.py:247-272 | the loop computes the ratio of distinct to all n-grams, which lies in [0, 1] and is 0 iff every sequence is shorter than n |
| Counting.Add | src/enhanced_data_processor.py:461 | counting a word adds one to its count and no other |
| Counting.AddAllValid | src/enhanced_data_processor.py:455-461 | counting keeps the counter well formed, keeps the first-seen order, and adds every word |
| Counting.AddAllKeys | src/enhanced_data_processor.py:455-461 | counting adds no word that was not counted |
| Counting.AddAllCounts | src/enhanced_data_processor.py:455-461 | each count grows by the word's number of occurrences |
| Counting.Frequent | src/enhanced_data_processor.py:464-467 | the kept items are counted words with their counts, each at least the minimum |
| Counting.RankByCount | src/enhanced_data_processor.py:470-473 | sorting is a permutation of the items |
| Counting.RankSorted | src/enhanced_data_processor.py:470-473 | the ranking is in non-increasing count order |
| Counting.InsertWithCount | src/enhanced_data_processor.py:470-473 | inserting into a ranking places the new item after every item already there with the same count |
| Counting.RankStable | src/enhanced_data_processor.py:470-473 | the sort is stable: for every count, the items with that count appear in the ranking exactly as, and in the order, they appear in the input |
| Counting.RankDistinct | src/enhanced_data_processor.py:470-473 | ranking distinct words gives distinct words |
| Counting.Top | src/enhanced_data_processor.py:474 | the top items are a prefix, as long as asked or as the list |
| Counting.SelectedProperties | src/utils.py:70-77 | the selection has at most n distinct counted words with their counts, each at least the minimum, in non-increasing order; while there is room, no frequent enough word is left out, and one left out is counted no more often than any selected word |
| Counting.SelectedTop | src/utils.py:73-76 | the selection is the top of the ranking: a frequent enough word left out is counted no more often than any selected word |
| Counting.SelectedTies | src/utils.py:70-77 | among words with the same count, the selected ones are the first of them in first-seen order |
| Text.Split | src/enhanced_data_processor.py:402-403 | `str.split()` gives non-empty words without whitespace |
| Text.LStrip | src/data_processor.py:38-41 | `lstrip` removes only leading whitespace, and all of it |
| Text.RStrip | src/data_processor.py:133 | `rstrip` keeps a prefix and removes only trailing whitespace, and all of it |
| Text.Strip | src/data_processor.py:89 | `strip` leaves no leading or trailing whitespace and keeps a word without whitespace |
| Text.StripFacts | src/data_processor.py:89 | stripping keeps only characters of the string, and leaves a stripped string alone |
| Text.Lower | src/enhanced_data_processor.py:459 | lower-casing keeps the length and leaves no upper-case letter |
| Text.ReplaceChar | src/data_processor.py:131 | replacing a character keeps the length and removes that character |
| Text.CollapseSpaces | src/data_processor.py:129 | every whitespace run becomes a single space |
| Text.SplitLines | src/data_processor.py:89 | `split('\n')` gives at least one piece and no piece holds a newline |
| Text.SplitJoin | src/enhanced_data_processor.py:525-530 | joining words by spaces and splitting again gives the words back |
| Text.JoinSplitLines | src/data_processor.py:89 | joining the lines of a text with newlines gives the text back |
| Text.SplitLinesJoin | src/data_processor.py:206 | lines without newlines joined with newlines split back into the same lines |
| Text.NatToDecimal | src/football_simulation.py:339 | `str(n)` is a non-empty string of digits |
| Text.DecimalRoundTrip | src/football_simulation.py:339 | reading back `str(n)` gives `n` |
| Text.SplitChars | src/utils.py:94 | every character of a word of `split()` comes from the text |
| Dialogue.CleanTextShape | src/data_processor.py:125-133 | the cleaned text has no backslash, no leading or trailing whitespace, and no whitespace other than plain spaces |
| Dialogue.CleanKeepsText | src/data_processor.py:125-133 | cleaning changes only whitespace and drops the backslashes; the other characters stay in order |
| Dialogue.CleanKeepsDoubleSpace | src/data_processor.py:129-133 | spaces put in for backslashes are not collapsed again, so a cleaned text can hold two spaces in a row |
| Dialogue.SpeakerColon | src/data_processor.py:38-41 | the first colon from an index on that is not the last character, or none |
| Dialogue.MatchSpeakerSpec | src/data_processor.py:38-41 | the speaker pattern matches iff some colon at index 1 or later is not the last character; the speaker runs up to the first such colon |
| Dialogue.SpeakerOfStripped | src/data_processor.py:99-101 | on a stripped line, speaker and dialogue are non-empty, and the dialogue is the text after the colon without its leading whitespace |
| Dialogue.ClassifySpec | src/data_processor.py:89-102 | a line is blank iff it strips to nothing, and a speaker line iff its stripped form has a colon after its first and before its last character; the speaker is the text before the first such colon and the dialogue the cleaned rest |
| Dialogue.ClassifyWellFormed | src/data_processor.py:93-102 | a classified speaker line names a speaker, and other text is not empty |
| Dialogue.Classified | src/data_processor.py:89-92 | one classification per line |
| Dialogue.ClassifiedWellFormed | src/data_processor.py:89-102 | every classified line is well formed |
| Dialogue.LastN | src/data_processor.py:106 | `b[-n:]` is the suffix of length `min(n, len(b))` |
| Dialogue.ParseDialogueFormat | src/data_processor.py:87-123 | the parsing loop yields the turns of the line-by-line state machine |
| Dialogue.MatchCountZero | src/data_processor.py:99-117 | there are no speaker lines iff no line is one |
| Dialogue.BufferEntries | src/data_processor.py:117-121 | every buffer entry is non-empty |
| Dialogue.TurnCount | src/data_processor.py:104-114 | the first speaker line never yields a turn: there is at least one turn fewer than speaker lines |
| Dialogue.BufferEmpty | src/data_processor.py:104-121 | the buffer stays empty, and no turn is made, iff there has been no speaker line; other text before that is dropped |
| Dialogue.WindowedGrows | src/data_processor.py:117-121 | a turn's window of the buffer stays a window as the buffer grows |
| Dialogue.TurnsWellFormed | src/data_processor.py:104-121 | every turn has a non-empty cleaned response and a non-empty context, which is the last three (or fewer) buffer entries before its line, joined by single spaces |
| Dialogue.NewTurn | src/data_processor.py:104-114 | the turn a speaker line adds is well formed in the new buffer |
| Dialogue.JoinNonEmpty | src/data_processor.py:106-107 | joining parts whose first is non-empty gives a non-empty text |
| Dialogue.CleanPairs | src/data_processor.py:77-78 | one cleaned pair per match |
| Dialogue.KeepPairsProperties | src/data_processor.py:73-83 | a pair becomes a turn iff both its cleaned parts are non-empty; every turn comes from a pair; there are no more turns than pairs |
| Dialogue.ParseContextResponse | src/data_processor.py:68-85 | the post-filter loop keeps exactly the pairs `KeepPairs` describes |
| Dialogue.ParseFile | src/data_processor.py:43-66 | the context/response turns are used when there are any, the dialogue parse otherwise; the dialogue parse is used iff no context/response turn survives |
| Dialogue.MarkerCase | dialogue_parser.py:34-37 | the case-insensitive copy accepts every marker the exact one does, and also `Context:` and `RESPONSE:` |
| Dialogue.ConversationLines | src/data_processor.py:199-206 | three lines per turn |
| Dialogue.ConversationLinesAt | src/data_processor.py:200-205 | turn k is written as `Human: c`, `Assistant: r` and an empty line, at lines 3k to 3k+2 |
| Dialogue.ToTrainingFormat | src/data_processor.py:164-209 | the conversational format is those lines joined by newlines; an unknown format is an error naming it |
| Dialogue.Exchanges | src/data_processor.py:199-206 | one (context, response) pair per turn |
| Dialogue.ConversationLinesNoNewline | src/data_processor.py:199-206 | when no text holds a newline, no line does |
| Dialogue.ReadConversationLines | src/data_processor.py:199-206 | reading the lines back three at a time gives every turn's context and response |
| Dialogue.ConversationRoundTrip | src/data_processor.py:199-206 | when no text holds a newline, the conversational text splits back into every turn's context and response |
| Dialogue.Max | src/data_processor.py:227-230 | `max` is an element and bounds all elements from above |
| Dialogue.Min | src/data_processor.py:228-231 | `min` is an element and bounds all elements from below |
| Dialogue.SumBounds | src/data_processor.py:221-231 | the sum lies between length times minimum and length times maximum |
| Dialogue.MeanBounds | src/data_processor.py:226-229 | a mean lies between the bounds of its sum |
| Dialogue.CalculateStats | src/data_processor.py:215-232 | nothing for no turns; otherwise the turn count, and for contexts and responses the mean word count (sum over turn count) and a minimum and maximum that are word counts bounding all the others, with min <= avg <= max |
| Enhanced.DefaultConfig | src/enhanced_data_processor.py:31-48 | the defaults leave room for the reserved tokens, keep every range non-empty, have augmentation off with a ratio in [0, 1], and use the tokenizer's reserved words |
| Enhanced.RFind | src/enhanced_data_processor.py:244 | `rfind` gives the last index of the character, or -1 |
| Enhanced.ExtensionShape | src/enhanced_data_processor.py:244 | an extension is empty or a suffix of the path starting with its only dot, with no slash |
| Enhanced.ExtensionOf | src/enhanced_data_processor.py:244 | a name ending in a dot and a dot-free, slash-free suffix has that suffix as its extension |
| Enhanced.DispatchBySuffix | src/enhanced_data_processor.py:244-253 | `.json`, `.jsonl` and `.csv`, in any case, go to their parsers, and any other extension to the text parser |
| Enhanced.DotFileIsText | src/enhanced_data_processor.py:244-253 | a name that starts with its only dot has no extension and goes to the text parser |
| Enhanced.FilterMembers | src/enhanced_data_processor.py:385-416 | a turn is kept iff it is in the input and both texts have character lengths and word counts within the bounds, bounds included |
| Enhanced.FilterAppend | src/enhanced_data_processor.py:387-414 | filtering works turn by turn, so the kept turns keep their order |
| Enhanced.FilterIdempotent | src/enhanced_data_processor.py:385-416 | filtering twice is filtering once |
| Enhanced.Processor.constructor | src/enhanced_data_processor.py:113-115 | a new processor has its configuration and empty storage |
| Enhanced.Processor.ApplyQualityFilters | src/enhanced_data_processor.py:375-416 | the loop with its eight tests keeps exactly the turns `Filter` keeps |
| Enhanced.DedupKeys | src/enhanced_data_processor.py:428-442 | the kept turns have pairwise different keys, cover all the input's keys, come from the input, and are no more than the input |
| Enhanced.DedupKeepsFirst | src/enhanced_data_processor.py:431-439 | every first turn of its key is kept |
| Enhanced.DedupOnlyFirst | src/enhanced_data_processor.py:431-439 | every kept turn is the first of its key in the input |
| Enhanced.DedupUnique | src/enhanced_data_processor.py:428-442 | turns whose keys are already unique are left alone |
| Enhanced.DedupIdempotent | src/enhanced_data_processor.py:428-442 | de-duplicating twice is de-duplicating once |
| Enhanced.RemoveDuplicatesBy | src/enhanced_data_processor.py:428-442 | the loop keeps the first turn of each key, in order |
| Enhanced.RemoveDuplicates | src/enhanced_data_processor.py:418-442 | the first turn of each context-and-response text (the two joined by a vertical bar) is kept; keys are unique and the output is no longer than the input |
| Enhanced.ContentKeyCollision | src/enhanced_data_processor.py:433-438 | turns with different contexts and responses can share the joined text, and the second is then dropped |
| Enhanced.RemoveDuplicatePairs | src/enhanced_data_processor.py:428-442 | with the (context, response) pair as key, the first turn of each pair is kept, pairs are unique, and every input pair is kept once |
| Enhanced.PairKeyKeepsBoth | src/enhanced_data_processor.py:433-438 | with the pair as key, the two colliding turns are both kept |
| Enhanced.VocabTexts | src/enhanced_data_processor.py:457-458 | two texts per turn |
| Enhanced.LowerWordsNoUpper | src/enhanced_data_processor.py:459 | a counted word has no upper-case letter |
| Enhanced.CountWordsCounts | src/enhanced_data_processor.py:455-461 | a word's frequency is its number of occurrences among the lower-cased words of all contexts and responses |
| Enhanced.CountWordsKeys | src/enhanced_data_processor.py:455-461 | counting keeps the frequencies well formed and adds only lower-cased words |
| Enhanced.SelectedFromTexts | src/enhanced_data_processor.py:455-474 | the words chosen from the counts: at most n distinct words, each with its number of occurrences, at least the minimum, in non-increasing order; while there is room, no word occurring often enough is left out, and one left out occurs no more often than any selected word |
| Enhanced.SelectionProperties | src/enhanced_data_processor.py:454-474 | with room for the reserved tokens, at most `max_vocab_size - 4` distinct words, each with frequency at least `min_word_freq`, in non-increasing order, none left out while there is room, and any left out occurring no more often than every selected word |
| Enhanced.PairMapAt | src/enhanced_data_processor.py:489 | `dict(items)` over distinct words maps each word to its count and nothing else |
| Enhanced.SpecialIdsAt | src/enhanced_data_processor.py:477-482 | distinct reserved tokens have the ids 0 to 3, and no other keys exist |
| Enhanced.NumberedWords | src/enhanced_data_processor.py:477-485 | reserved tokens at 0-3, the words at 4, 5, ... in order, no other key, and no two keys share an id |
| Enhanced.VocabularyIds | src/enhanced_data_processor.py:454-491 | the returned vocabulary has the reserved tokens at 0-3 and the selected words at 4, 5, ... in frequency order, no other key, and no two keys share an id |
| Enhanced.WordFrequencies | src/enhanced_data_processor.py:488-489 | the recorded frequencies are exactly the selected words, each with its number of occurrences, at least `min_word_freq` |
| Enhanced.CountText | src/enhanced_data_processor.py:459-461 | the inner loop counts every lower-cased word of one text |
| Enhanced.CountTurns | src/enhanced_data_processor.py:455-461 | the counting loops count every word of every context and response |
| Enhanced.NumberFrom | src/enhanced_data_processor.py:484-485 | the numbering loop writes the words at 4, 5, ... over the starting map |
| Enhanced.Processor.BuildVocabulary | src/enhanced_data_processor.py:444-491 | returns the vocabulary `VocabularyOf` describes, records its keys as `vocabulary` and the selected pairs as `word_frequencies`, and changes nothing else |
| Enhanced.ShuffledShape | src/enhanced_data_processor.py:525-536 | a shuffled turn keeps the response and the context's word count, first word, last word and multiset of middle words, and is tagged as a context shuffle |
| Enhanced.ShuffleContext | src/enhanced_data_processor.py:525-536 | shuffling one turn builds the turn `Shuffled` describes |
| Enhanced.AppendShuffles | src/enhanced_data_processor.py:514-536 | the loop appends, after all originals, the shuffles of the picked turns when the technique is requested |
| Enhanced.AddedTurns | src/enhanced_data_processor.py:522-536 | at most one turn is added per pick, and each is a shuffle of a picked turn |
| Enhanced.SampleSizeBounds | src/enhanced_data_processor.py:515-520 | the sample size never exceeds the number of turns; with a ratio in [0, 1] it is the floor of the product |
| Enhanced.AugmentOutcome | src/enhanced_data_processor.py:508-539 | it fails iff enabled with a negative sample size; disabled, the input comes back unchanged; otherwise the originals come first, followed by at most one turn per sampled one, and nothing is added without the context-shuffle technique |
| Enhanced.AugmentedAreShuffles | src/enhanced_data_processor.py:520-536 | every added turn is a context shuffle of one of the sampled turns |
| Enhanced.Processor.AugmentDialogues | src/enhanced_data_processor.py:493-539 | the method computes the result `Augment` describes, given the sample and shuffle draws |

## Left out

- File and directory I/O is left out: `parse_directory`, file reading and `errors='ignore'` decoding, the JSON/JSONL/CSV/YAML parsers, `export_to_format`, `from_config_file`, `process_drive_files` and `process_files`. The model starts from a file's content or path.
- The context/response regular expression of `_parse_context_response` is an uninterpreted extractor: its matches are a parameter. Only its cleaning and non-empty filter are modelled, plus the case of its markers (`MarkerCase`).
- The `jsonl` and `csv` branches of `to_training_format` (json.dumps and csv quoting) are left out; `ToTrainingFormat` requires another format.
- md5 in `_remove_duplicates` is left out: the digest stands for its `context|response` text, so hash collisions are ignored.
- Logging throughout, and the TensorFlow models, training loops and other utilities of the repository (`calculate_bleu`, `monte_carlo_rollout`, `calculate_perplexity`, `load_dialogue_data`), are not part of this model.
- The override dictionaries of the processor's `__init__` are left out: `Processor.constructor` takes the resulting configuration.
- `seenDialogues` is kept as storage; none of the modelled methods reads it, as none of the source's methods does.
- Default arguments are not modelled as defaults: `num_players=11`, `n=2` of `calculate_diversity`, `padding='post'`, `add_start_end=False` and `format_type='jsonl'` are explicit parameters of the corresponding members.
- Randomness is left out: every draw is a parameter, as described above, and no generator is modelled.
- `random.shuffle` of the middle words is modelled as the permutation it applies, not as an in-place update.
- Floating point is left out: positions, ratios and statistics are exact reals. `sqrt` is avoided: the model works with squared distances, and `InLaneMatchesRootComparison` connects the two.
- `Enhanced.SampleSizeBounds`: states the sample size for an exact real product `len(turns) * augment_ratio`, not for the rounded float product.
- `int32` storage in `pad_sequences` is left out: ids are unbounded integers.
- `str.lower` is modelled on ASCII letters only; `str.split`/`strip`/`\s` use one whitespace predicate (`Text.IsSpace`) covering ASCII and the common Unicode spaces, an approximation of Python's full table.
- `os.path.splitext` is modelled for POSIX paths only.
- `Sequences.PadSequences`: requires, in a mode other than 'post', that no sequence is empty while `maxlen` is positive, and that none has two or more ids while `maxlen` is zero; numpy's slice assignment fails in those cases (a single id broadcasts into the empty row and is admitted). A negative `maxlen`, for which `np.zeros` raises, is excluded by the `nat` type.
- `Sequences.CreateBatches`, `Sequences.NumBatches` and `Sequences.Split`: require a batch size of at least 1. A batch size of 0 fails in the source with a division by zero, and a negative size slices differently; neither is modelled. The callers pass the configured `BATCH_SIZE` of 64.
- `Match.MatchSimulator.GetTrainingData`: returns the log as a value at the time of the call, whereas `get_training_data` returns the simulator's own list. In the source a list returned earlier sees the events that later steps append, until the next `reset`; `reset` binds a new empty list and leaves the returned one with its events.
- `Tokens.Tokenizer.FitOnTexts`, `Tokens.FreshFit`, `Enhanced.SelectionProperties`, `Enhanced.VocabularyIds` and `Enhanced.WordFrequencies`: require a vocabulary size of at least 4. Python's negative-slice behaviour below that is modelled in `Enhanced.Selection` through `Sequences.SliceBound`, but no property is proved for it.
- `Tokens.Tokenizer.FitOnTexts`: a second fit on the same tokenizer is modelled as written: older entries stay in the tables, and the inverse property is proved only for the first fit on a new tokenizer (`FreshFit`). Stale ids may remain after refitting.
- `Match.MatchSimulator.SimulateStep`: team identity is modelled by reference, and the defending-team choice uses record equality (`Team.SameAs`) as the source's dataclass `==` does.

## Findings

| source | as written | input that shows it | evidently intended | confidence | as-written member | corrected member |
|---|---|---|---|---|---|---|
| src/enhanced_data_processor.py:433-438 | duplicates are detected on the context and the response joined by a vertical bar, a text that does not mark where the context ends | context `a` + bar + `b` with response `c`, then context `a` with response `b` + bar + `c`: both join to the same text, so the second is dropped although its context and its response both differ | a turn is a duplicate only when both its context and its response equal an earlier turn's | low, not executed | Enhanced.ContentKeyCollision | Enhanced.RemoveDuplicatePairs |
