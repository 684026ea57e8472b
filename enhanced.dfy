/** `EnhancedDialogueProcessor`: the processing configuration, the choice of parser by file
    extension, the quality filters, de-duplication, vocabulary building and context-shuffle
    augmentation. */
module Enhanced {
  import opened Wrappers
  import opened Text
  import opened Counting
  import opened Dialogue
  import Tokens
  import Sequences

  // ---------------------------------------------------------------------------------------
  // ProcessingConfig
  // ---------------------------------------------------------------------------------------

  datatype ProcessingConfig = ProcessingConfig(
    minDialogueLength: int, maxDialogueLength: int, minCharOccurrence: int,
    minWordCount: int, maxWordCount: int, removeDuplicates: bool,
    maxVocabSize: int, minWordFreq: int,
    oovToken: string, padToken: string, startToken: string, endToken: string,
    augmentationEnabled: bool, augmentRatio: real, synonymReplaceProb: real,
    batchSize: int, parallelWorkers: int, showProgress: bool)

  /** The dataclass defaults. */
  const DEFAULT_CONFIG: ProcessingConfig := ProcessingConfig(
    5, 150, 3,
    2, 100, true,
    5000, 2,
    "<UNK>", "<PAD>", "<START>", "<END>",
    false, 0.3, 0.3,
    100, 4, true)

  predicate HasUpper(s: string) {
    exists i :: 0 <= i < |s| && 'A' <= s[i] <= 'Z'
  }

  /** Reserved tokens that cannot collide with each other nor with a lower-cased word. */
  predicate ReservedTokensApart(cfg: ProcessingConfig) {
    && Distinct([cfg.padToken, cfg.startToken, cfg.endToken, cfg.oovToken])
    && HasUpper(cfg.padToken) && HasUpper(cfg.startToken) && HasUpper(cfg.endToken) && HasUpper(cfg.oovToken)
  }

  /** The defaults leave room for the reserved tokens, keep every range non-empty, use the
      tokenizer's reserved words, and those words stay apart. */
  lemma DefaultConfig()
    ensures DEFAULT_CONFIG.maxVocabSize >= 4
    ensures DEFAULT_CONFIG.minDialogueLength <= DEFAULT_CONFIG.maxDialogueLength
    ensures DEFAULT_CONFIG.minWordCount <= DEFAULT_CONFIG.maxWordCount
    ensures 0.0 <= DEFAULT_CONFIG.augmentRatio <= 1.0 && !DEFAULT_CONFIG.augmentationEnabled
    ensures DEFAULT_CONFIG.padToken == Tokens.PAD_TOKEN && DEFAULT_CONFIG.startToken == Tokens.START_TOKEN
    ensures DEFAULT_CONFIG.endToken == Tokens.END_TOKEN && DEFAULT_CONFIG.oovToken == Tokens.UNK_TOKEN
    ensures ReservedTokensApart(DEFAULT_CONFIG)
  {
    var c := DEFAULT_CONFIG;
    assert 'A' <= c.padToken[1] <= 'Z' && 'A' <= c.startToken[1] <= 'Z';
    assert 'A' <= c.endToken[1] <= 'Z' && 'A' <= c.oovToken[1] <= 'Z';
    assert c.padToken[1] != c.startToken[1] && c.padToken[1] != c.endToken[1] && c.padToken[1] != c.oovToken[1];
    assert c.startToken[1] != c.endToken[1] && c.startToken[1] != c.oovToken[1] && c.endToken[1] != c.oovToken[1];
  }

  // ---------------------------------------------------------------------------------------
  // _process_single_file: the choice of parser
  // ---------------------------------------------------------------------------------------

  /** `s.rfind(c)`: the last index of `c`, or -1. */
  function RFind(s: string, c: char): (r: int)
    ensures -1 <= r < |s|
    ensures r >= 0 ==> s[r] == c
    ensures forall i :: r < i < |s| ==> s[i] != c
  {
    if s == [] then -1 else if s[|s| - 1] == c then |s| - 1 else RFind(s[..|s| - 1], c)
  }

  /** `os.path.splitext(path)[1]` for a POSIX path: from the last dot of the last path
      component, provided something other than a dot comes before it in that component. */
  function Extension(path: string): string {
    var sep := RFind(path, '/');
    var dot := RFind(path, '.');
    if dot > sep && exists i :: sep < i < dot && path[i] != '.' then path[dot..] else []
  }

  datatype Parser = JsonParser | JsonlParser | CsvParser | TextParser

  /** The parser `_process_single_file` hands the file to, by its lower-cased extension. */
  function ParserFor(path: string): Parser {
    var ext := Lower(Extension(path));
    if ext == ".json" then JsonParser
    else if ext == ".jsonl" then JsonlParser
    else if ext == ".csv" then CsvParser
    else TextParser
  }

  /** An extension is a suffix of the path: empty, or a dot followed by neither a dot nor a
      slash. */
  lemma ExtensionShape(path: string)
    ensures var e := Extension(path);
            e == [] || (|e| <= |path| && e == path[|path| - |e|..] && e[0] == '.' && forall i :: 1 <= i < |e| ==> e[i] != '.' && e[i] != '/')
  {
    var sep := RFind(path, '/');
    var dot := RFind(path, '.');
    var e := Extension(path);
    if e != [] {
      assert e == path[dot..];
      forall i | 1 <= i < |e|
        ensures e[i] != '.' && e[i] != '/'
      {
        assert e[i] == path[dot + i];
      }
    }
  }

  /** A file name that ends in a dot and a dot-free, slash-free suffix has that suffix as its
      extension, whatever the directories before it. */
  lemma ExtensionOf(stem: string, e: string)
    requires '.' !in e && '/' !in e
    requires stem != [] && stem[|stem| - 1] != '.' && stem[|stem| - 1] != '/'
    ensures Extension(stem + "." + e) == "." + e
  {
    var path := stem + "." + e;
    var dot := |stem|;
    var sep := RFind(path, '/');
    assert path[dot] == '.';
    forall i | dot < i < |path|
      ensures path[i] != '.' && path[i] != '/'
    {
      assert path[i] == e[i - dot - 1];
    }
    assert RFind(path, '.') == dot;
    assert path[dot - 1] == stem[|stem| - 1];
    assert sep < dot - 1;
    assert path[dot..] == "." + e;
  }

  lemma LowerDot(e: string)
    ensures Lower("." + e) == "." + Lower(e)
  {
  }

  /** Dispatch goes by the extension whatever its case: `.json`, `.jsonl` and `.csv` have
      their own parsers, and any other name goes to the text parser. */
  lemma DispatchBySuffix(stem: string, e: string)
    requires '.' !in e && '/' !in e
    requires stem != [] && stem[|stem| - 1] != '.' && stem[|stem| - 1] != '/'
    ensures ParserFor(stem + "." + e) ==
              if Lower(e) == "json" then JsonParser
              else if Lower(e) == "jsonl" then JsonlParser
              else if Lower(e) == "csv" then CsvParser
              else TextParser
  {
    ExtensionOf(stem, e);
    LowerDot(e);
    var l := Lower(e);
    DotEq(l, "json");
    DotEq(l, "jsonl");
    DotEq(l, "csv");
  }

  lemma DotEq(l: string, m: string)
    ensures ("." + l == "." + m) == (l == m)
  {
    if "." + l == "." + m {
      assert l == ("." + l)[1..];
      assert m == ("." + m)[1..];
    }
  }

  /** A file name that starts with its only dot, such as `.json` or `dir/.csv`, has no
      extension and goes to the text parser. */
  lemma DotFileIsText(dir: string, e: string)
    requires '.' !in e && '/' !in e
    ensures ParserFor(dir + "/." + e) == TextParser
  {
    var path := dir + "/." + e;
    var slash := |dir|;
    assert path[slash] == '/' && path[slash + 1] == '.';
    forall i | slash + 1 < i < |path|
      ensures path[i] != '.' && path[i] != '/'
    {
      assert path[i] == e[i - slash - 2];
    }
    assert RFind(path, '.') == slash + 1;
    assert RFind(path, '/') == slash;
    assert Extension(path) == [];
  }

  // ---------------------------------------------------------------------------------------
  // _apply_quality_filters
  // ---------------------------------------------------------------------------------------

  /** The eight tests of `_apply_quality_filters`: both texts have a character length and a
      whitespace word count within the configured bounds, bounds included. */
  predicate Passes(cfg: ProcessingConfig, t: DialogueTurn) {
    && cfg.minDialogueLength <= |t.context| <= cfg.maxDialogueLength
    && cfg.minDialogueLength <= |t.response| <= cfg.maxDialogueLength
    && cfg.minWordCount <= |Split(t.context)| <= cfg.maxWordCount
    && cfg.minWordCount <= |Split(t.response)| <= cfg.maxWordCount
  }

  /** The turns that pass, in their order. */
  function Filter(cfg: ProcessingConfig, turns: seq<DialogueTurn>): seq<DialogueTurn> {
    if turns == [] then []
    else Filter(cfg, turns[..|turns| - 1]) + (if Passes(cfg, turns[|turns| - 1]) then [turns[|turns| - 1]] else [])
  }

  /** A turn is kept exactly when it is in the input and passes; nothing is added. */
  lemma {:induction false} FilterMembers(cfg: ProcessingConfig, turns: seq<DialogueTurn>)
    ensures |Filter(cfg, turns)| <= |turns|
    ensures forall t :: t in Filter(cfg, turns) <==> t in turns && Passes(cfg, t)
  {
    if turns != [] {
      var init := turns[..|turns| - 1];
      FilterMembers(cfg, init);
      assert turns == init + [turns[|turns| - 1]];
    }
  }

  /** Filtering works element by element, so it keeps the input's order. */
  lemma {:induction false} FilterAppend(cfg: ProcessingConfig, a: seq<DialogueTurn>, b: seq<DialogueTurn>)
    ensures Filter(cfg, a + b) == Filter(cfg, a) + Filter(cfg, b)
  {
    if b != [] {
      var init := b[..|b| - 1];
      FilterAppend(cfg, a, init);
      assert (a + b)[..|a + b| - 1] == a + init;
    } else {
      assert a + b == a;
    }
  }

  /** Filtering twice is filtering once. */
  lemma {:induction false} FilterIdempotent(cfg: ProcessingConfig, turns: seq<DialogueTurn>)
    ensures Filter(cfg, Filter(cfg, turns)) == Filter(cfg, turns)
  {
    if turns != [] {
      var init := turns[..|turns| - 1];
      var last := turns[|turns| - 1];
      FilterIdempotent(cfg, init);
      var kept := if Passes(cfg, last) then [last] else [];
      FilterAppend(cfg, Filter(cfg, init), kept);
      if Passes(cfg, last) {
        assert Filter(cfg, [last]) == Filter(cfg, [])[..0] + [last];
      }
    }
  }

  // ---------------------------------------------------------------------------------------
  // _remove_duplicates
  // ---------------------------------------------------------------------------------------

  /** The text `f"{context}|{response}"` whose md5 digest `_remove_duplicates` compares. */
  function ContentKey(t: DialogueTurn): string {
    t.context + "|" + t.response
  }

  /** The context and the response themselves. */
  function PairKey(t: DialogueTurn): (string, string) {
    (t.context, t.response)
  }

  /** The keys of the turns. */
  function KeySet<K>(turns: seq<DialogueTurn>, key: DialogueTurn -> K): set<K> {
    set i | 0 <= i < |turns| :: key(turns[i])
  }

  /** The first turn of each key, in order. */
  function DedupBy<K(==)>(turns: seq<DialogueTurn>, key: DialogueTurn -> K): seq<DialogueTurn> {
    if turns == [] then []
    else
      var d := DedupBy(turns[..|turns| - 1], key);
      if key(turns[|turns| - 1]) in KeySet(d, key) then d else d + [turns[|turns| - 1]]
  }

  /** No two turns share a key. */
  predicate UniqueKeys<K(==)>(turns: seq<DialogueTurn>, key: DialogueTurn -> K) {
    forall i, j :: 0 <= i < j < |turns| ==> key(turns[i]) != key(turns[j])
  }

  /** The turn at `i` is the first of its key. */
  predicate FirstOfKey<K(==)>(turns: seq<DialogueTurn>, key: DialogueTurn -> K, i: int)
    requires 0 <= i < |turns|
  {
    forall j :: 0 <= j < i ==> key(turns[j]) != key(turns[i])
  }

  lemma KeySetAppend<K>(d: seq<DialogueTurn>, t: DialogueTurn, key: DialogueTurn -> K)
    ensures KeySet(d + [t], key) == KeySet(d, key) + {key(t)}
  {
    var e := d + [t];
    forall x | x in KeySet(e, key)
      ensures x in KeySet(d, key) + {key(t)}
    {
      var i :| 0 <= i < |e| && key(e[i]) == x;
      if i < |d| {
        assert e[i] == d[i];
      }
    }
    forall x | x in KeySet(d, key) + {key(t)}
      ensures x in KeySet(e, key)
    {
      if x in KeySet(d, key) {
        var i :| 0 <= i < |d| && key(d[i]) == x;
        assert e[i] == d[i];
      } else {
        assert e[|d|] == t;
      }
    }
  }

  /** The kept turns have pairwise different keys and together all the keys of the input;
      each is a turn of the input, and there are no more of them. */
  lemma {:induction false} DedupKeys<K>(turns: seq<DialogueTurn>, key: DialogueTurn -> K)
    ensures UniqueKeys(DedupBy(turns, key), key)
    ensures KeySet(DedupBy(turns, key), key) == KeySet(turns, key)
    ensures |DedupBy(turns, key)| <= |turns|
    ensures forall t :: t in DedupBy(turns, key) ==> t in turns
  {
    if turns != [] {
      var init := turns[..|turns| - 1];
      var last := turns[|turns| - 1];
      DedupKeys(init, key);
      KeySetAppend(init, last, key);
      assert turns == init + [last];
      var d := DedupBy(init, key);
      if key(last) !in KeySet(d, key) {
        KeySetAppend(d, last, key);
        var e := d + [last];
        forall i, j | 0 <= i < j < |e|
          ensures key(e[i]) != key(e[j])
        {
          if j == |d| {
            assert key(e[i]) in KeySet(d, key) by {
              assert e[i] == d[i];
            }
          } else {
            assert e[i] == d[i] && e[j] == d[j];
          }
        }
      }
    }
  }

  /** Dropping the last turn leaves the other turns' first-of-key status as it was. */
  lemma FirstOfKeyInit<K>(turns: seq<DialogueTurn>, key: DialogueTurn -> K, i: int)
    requires 0 <= i < |turns| - 1
    ensures FirstOfKey(turns[..|turns| - 1], key, i) == FirstOfKey(turns, key, i)
  {
    var init := turns[..|turns| - 1];
    assert forall j :: 0 <= j <= i ==> init[j] == turns[j];
  }

  /** Every first turn of its key is kept. */
  lemma {:induction false} DedupKeepsFirst<K>(turns: seq<DialogueTurn>, key: DialogueTurn -> K)
    ensures forall i :: 0 <= i < |turns| && FirstOfKey(turns, key, i) ==> turns[i] in DedupBy(turns, key)
  {
    if turns != [] {
      var init := turns[..|turns| - 1];
      DedupKeepsFirst(init, key);
      forall i | 0 <= i < |turns| && FirstOfKey(turns, key, i)
        ensures turns[i] in DedupBy(turns, key)
      {
        if i < |init| {
          FirstOfKeyInit(turns, key, i);
          assert init[i] == turns[i];
          DedupGrows(turns, key);
        } else {
          DedupKeepsFirstOfLast(turns, key);
        }
      }
    }
  }

  /** A turn kept before the last one is looked at stays kept. */
  lemma DedupGrows<K>(turns: seq<DialogueTurn>, key: DialogueTurn -> K)
    requires turns != []
    ensures forall t :: t in DedupBy(turns[..|turns| - 1], key) ==> t in DedupBy(turns, key)
  {
  }

  /** The last turn is kept when it is the first of its key. */
  lemma DedupKeepsFirstOfLast<K>(turns: seq<DialogueTurn>, key: DialogueTurn -> K)
    requires turns != [] && FirstOfKey(turns, key, |turns| - 1)
    ensures turns[|turns| - 1] in DedupBy(turns, key)
  {
    var init := turns[..|turns| - 1];
    var last := turns[|turns| - 1];
    DedupKeySet(init, key);
    assert key(last) !in KeySet(init, key) by {
      forall j | 0 <= j < |init|
        ensures key(init[j]) != key(last)
      {
        assert init[j] == turns[j];
      }
    }
  }

  /** The kept turns have together all the keys of the input. */
  lemma DedupKeySet<K>(turns: seq<DialogueTurn>, key: DialogueTurn -> K)
    ensures KeySet(DedupBy(turns, key), key) == KeySet(turns, key)
  {
    DedupKeys(turns, key);
  }

  /** Every kept turn is the first of its key in the input. */
  lemma {:induction false} DedupOnlyFirst<K>(turns: seq<DialogueTurn>, key: DialogueTurn -> K)
    ensures forall t :: t in DedupBy(turns, key) ==> exists i :: 0 <= i < |turns| && turns[i] == t && FirstOfKey(turns, key, i)
  {
    if turns != [] {
      var init := turns[..|turns| - 1];
      var last := turns[|turns| - 1];
      var n := |init|;
      DedupOnlyFirst(init, key);
      DedupKeys(init, key);
      var d := DedupBy(init, key);
      forall t | t in DedupBy(turns, key)
        ensures exists i :: 0 <= i < |turns| && turns[i] == t && FirstOfKey(turns, key, i)
      {
        if t in d {
          var i :| 0 <= i < n && init[i] == t && FirstOfKey(init, key, i);
          FirstOfKeyInit(turns, key, i);
          assert turns[i] == t;
        } else {
          assert t == last && key(last) !in KeySet(init, key);
          assert FirstOfKey(turns, key, n) by {
            forall j | 0 <= j < n
              ensures key(turns[j]) != key(last)
            {
              assert turns[j] == init[j];
              assert key(init[j]) in KeySet(init, key);
            }
          }
        }
      }
    }
  }

  /** Turns with unique keys are left alone; in particular de-duplicating twice is
      de-duplicating once. */
  lemma {:induction false} DedupUnique<K>(turns: seq<DialogueTurn>, key: DialogueTurn -> K)
    requires UniqueKeys(turns, key)
    ensures DedupBy(turns, key) == turns
  {
    if turns != [] {
      var init := turns[..|turns| - 1];
      var last := turns[|turns| - 1];
      assert UniqueKeys(init, key) by {
        forall i, j | 0 <= i < j < |init|
          ensures key(init[i]) != key(init[j])
        {
          assert init[i] == turns[i] && init[j] == turns[j];
        }
      }
      DedupUnique(init, key);
      assert key(last) !in KeySet(init, key) by {
        forall i | 0 <= i < |init|
          ensures key(init[i]) != key(last)
        {
          assert init[i] == turns[i];
        }
      }
      assert turns == init + [last];
    }
  }

  lemma DedupIdempotent<K>(turns: seq<DialogueTurn>, key: DialogueTurn -> K)
    ensures DedupBy(DedupBy(turns, key), key) == DedupBy(turns, key)
  {
    DedupKeys(turns, key);
    DedupUnique(DedupBy(turns, key), key);
  }

  /** The loop of `_remove_duplicates`, over any key. */
  method RemoveDuplicatesBy<K(==)>(turns: seq<DialogueTurn>, key: DialogueTurn -> K) returns (unique: seq<DialogueTurn>)
    ensures unique == DedupBy(turns, key)
  {
    unique := [];
    var seen: set<K> := {};
    var i := 0;
    while i < |turns|
      invariant 0 <= i <= |turns|
      invariant unique == DedupBy(turns[..i], key)
      invariant seen == KeySet(unique, key)
    {
      assert turns[..i + 1][..i] == turns[..i];
      var k := key(turns[i]);
      if k !in seen {
        KeySetAppend(unique, turns[i], key);
        seen := seen + {k};
        unique := unique + [turns[i]];
      }
      i := i + 1;
    }
    assert turns[..i] == turns;
  }

  /** `_remove_duplicates` as written: two turns are duplicates when their `context|response`
      texts agree (the md5 digest of that text stands for the text). */
  method RemoveDuplicates(turns: seq<DialogueTurn>) returns (unique: seq<DialogueTurn>)
    ensures unique == DedupBy(turns, ContentKey)
    ensures UniqueKeys(unique, ContentKey) && |unique| <= |turns|
  {
    unique := RemoveDuplicatesBy(turns, ContentKey);
    DedupKeys(turns, ContentKey);
  }

  /** The joined text does not tell where the context ends: two turns with different contexts
      and responses can share it, and the second is dropped. */
  lemma ContentKeyCollision()
    ensures var t1, t2 := DialogueTurn("a|b", "c", NoMeta), DialogueTurn("a", "b|c", NoMeta);
            && t1.context != t2.context && t1.response != t2.response
            && DedupBy([t1, t2], ContentKey) == [t1]
  {
    var t1, t2 := DialogueTurn("a|b", "c", NoMeta), DialogueTurn("a", "b|c", NoMeta);
    assert ContentKey(t1) == ContentKey(t2);
    assert [t1, t2][..1] == [t1];
    assert DedupBy([t1], ContentKey) == [t1] by {
      assert [t1][..0] == [];
    }
    assert KeySet([t1], ContentKey) == {ContentKey(t1)};
  }

  /** Duplicates as intended: the same context and the same response. */
  method RemoveDuplicatePairs(turns: seq<DialogueTurn>) returns (unique: seq<DialogueTurn>)
    ensures unique == DedupBy(turns, PairKey)
    ensures UniqueKeys(unique, PairKey) && |unique| <= |turns|
    ensures forall i :: 0 <= i < |turns| ==> exists j :: 0 <= j < |unique| && PairKey(unique[j]) == PairKey(turns[i])
  {
    unique := RemoveDuplicatesBy(turns, PairKey);
    DedupKeys(turns, PairKey);
    forall i | 0 <= i < |turns|
      ensures exists j :: 0 <= j < |unique| && PairKey(unique[j]) == PairKey(turns[i])
    {
      assert PairKey(turns[i]) in KeySet(turns, PairKey);
    }
  }

  /** With the pair as key, the two turns above are both kept. */
  lemma PairKeyKeepsBoth()
    ensures var t1, t2 := DialogueTurn("a|b", "c", NoMeta), DialogueTurn("a", "b|c", NoMeta);
            DedupBy([t1, t2], PairKey) == [t1, t2]
  {
    var t1, t2 := DialogueTurn("a|b", "c", NoMeta), DialogueTurn("a", "b|c", NoMeta);
    assert PairKey(t1) != PairKey(t2);
    DedupUnique([t1, t2], PairKey);
  }

  // ---------------------------------------------------------------------------------------
  // build_vocabulary
  // ---------------------------------------------------------------------------------------

  /** The texts `build_vocabulary` counts, in order: each turn's context, then its response. */
  function VocabTexts(turns: seq<DialogueTurn>): (texts: seq<string>)
    ensures |texts| == 2 * |turns|
  {
    if turns == [] then []
    else VocabTexts(turns[..|turns| - 1]) + [turns[|turns| - 1].context, turns[|turns| - 1].response]
  }

  /** `text.lower().split()`. */
  function LowerWords(text: string): seq<string> {
    Split(Lower(text))
  }

  /** The counts after counting the lower-cased words of each text in turn. */
  function CountWords(c: Counter, texts: seq<string>): Counter {
    if texts == [] then c else AddAll(CountWords(c, texts[..|texts| - 1]), LowerWords(texts[|texts| - 1]))
  }

  /** How often `w` occurs among the lower-cased words of all texts. */
  function Occurrences(texts: seq<string>, w: string): nat {
    if texts == [] then 0 else Occurrences(texts[..|texts| - 1], w) + multiset(LowerWords(texts[|texts| - 1]))[w]
  }

  /** A lower-cased word has no upper-case letter. */
  lemma LowerWordsNoUpper(text: string)
    ensures forall k :: 0 <= k < |LowerWords(text)| ==> !HasUpper(LowerWords(text)[k])
  {
    var s := Lower(text);
    SplitChars(s);
    forall k, i | 0 <= k < |Split(s)| && 0 <= i < |Split(s)[k]|
      ensures !('A' <= Split(s)[k][i] <= 'Z')
    {
      var j :| 0 <= j < |s| && s[j] == Split(s)[k][i];
    }
  }

  lemma {:induction false} CountWordsCounts(c: Counter, texts: seq<string>, w: string)
    ensures Get(CountWords(c, texts), w) == Get(c, w) + Occurrences(texts, w)
  {
    if texts != [] {
      CountWordsCounts(c, texts[..|texts| - 1], w);
      AddAllCounts(CountWords(c, texts[..|texts| - 1]), LowerWords(texts[|texts| - 1]), w);
    }
  }

  /** Counting keeps the counter well formed and adds only words without an upper-case
      letter. */
  lemma {:induction false} CountWordsKeys(c: Counter, texts: seq<string>)
    requires Valid(c)
    ensures Valid(CountWords(c, texts))
    ensures forall w :: w in CountWords(c, texts).keys ==> w in c.keys || !HasUpper(w)
  {
    if texts != [] {
      var init := CountWords(c, texts[..|texts| - 1]);
      var ws := LowerWords(texts[|texts| - 1]);
      CountWordsKeys(c, texts[..|texts| - 1]);
      AddAllValid(init, ws);
      AddAllKeys(init, ws);
      LowerWordsNoUpper(texts[|texts| - 1]);
    }
  }

  /** `sorted(filtered_words.items(), key=count, reverse=True)[:max_vocab_size - 4]`: the
      words counted at least `min_word_freq` times, most frequent first, the slice taken as
      Python takes it. */
  function Selection(cfg: ProcessingConfig, turns: seq<DialogueTurn>): seq<(string, nat)> {
    var c := CountWords(Empty, VocabTexts(turns));
    CountWordsKeys(Empty, VocabTexts(turns));
    var ranked := RankByCount(Frequent(c, cfg.minWordFreq));
    ranked[..Sequences.SliceBound(cfg.maxVocabSize - 4, |ranked|)]
  }

  /** The reserved entries the vocabulary starts from. */
  function SpecialIds(cfg: ProcessingConfig): map<string, int> {
    map[cfg.padToken := 0][cfg.startToken := 1][cfg.endToken := 2][cfg.oovToken := 3]
  }

  /** The vocabulary `build_vocabulary` returns: the reserved entries, then the selected words
      numbered from 4 (a later entry overwriting an earlier one). */
  function VocabularyOf(cfg: ProcessingConfig, turns: seq<DialogueTurn>): map<string, int> {
    SpecialIds(cfg) + Tokens.IndexMap(Words(Selection(cfg, turns)), 4)
  }

  /** `dict(items)`. */
  function PairMap(items: seq<(string, nat)>): map<string, nat> {
    if items == [] then map[] else PairMap(items[..|items| - 1])[items[|items| - 1].0 := items[|items| - 1].1]
  }

  /** The words chosen from the counts of `texts`: at most `n` distinct words, none with an
      upper-case letter, each with its number of occurrences, that number at least `minFreq`,
      in non-increasing order; and while there is room, no word occurring often enough is
      left out. */
  lemma SelectedFromTexts(texts: seq<string>, minFreq: int, n: nat)
    ensures Valid(CountWords(Empty, texts))
    ensures var sel := Selected(CountWords(Empty, texts), minFreq, n);
            && |sel| <= n
            && NonIncreasing(sel)
            && Distinct(Words(sel))
            && (forall k :: 0 <= k < |sel| ==>
                  !HasUpper(sel[k].0) && sel[k].1 == Occurrences(texts, sel[k].0) >= minFreq)
            && (|sel| < n ==> forall w ::
                  Occurrences(texts, w) > 0 && Occurrences(texts, w) >= minFreq ==> (w, Occurrences(texts, w)) in sel)
            && (forall w, k ::
                  (Occurrences(texts, w) > 0 && Occurrences(texts, w) >= minFreq && (w, Occurrences(texts, w)) !in sel && 0 <= k < |sel|)
                  ==> Occurrences(texts, w) <= sel[k].1)
  {
    var c := CountWords(Empty, texts);
    CountWordsKeys(Empty, texts);
    SelectedShape(c, minFreq, n);
    SelectedOccurrences(texts, minFreq, n);
    SelectedAllFrequent(texts, minFreq, n);
    SelectedTopOccurrences(texts, minFreq, n);
  }

  /** A word occurring often enough that is left out occurs no more often than any selected
      word. */
  lemma SelectedTopOccurrences(texts: seq<string>, minFreq: int, n: nat)
    ensures Valid(CountWords(Empty, texts))
    ensures var sel := Selected(CountWords(Empty, texts), minFreq, n);
            forall w, k ::
              (Occurrences(texts, w) > 0 && Occurrences(texts, w) >= minFreq && (w, Occurrences(texts, w)) !in sel && 0 <= k < |sel|)
              ==> Occurrences(texts, w) <= sel[k].1
  {
    var c := CountWords(Empty, texts);
    CountWordsKeys(Empty, texts);
    var sel := Selected(c, minFreq, n);
    SelectedTop(c, minFreq, n);
    forall w, k | Occurrences(texts, w) > 0 && Occurrences(texts, w) >= minFreq &&
                  (w, Occurrences(texts, w)) !in sel && 0 <= k < |sel|
      ensures Occurrences(texts, w) <= sel[k].1
    {
      CountWordsCounts(Empty, texts, w);
      assert w in c.counts && c.counts[w] == Occurrences(texts, w);
    }
  }

  /** Each selected word has no upper-case letter and carries its number of occurrences. */
  lemma SelectedOccurrences(texts: seq<string>, minFreq: int, n: nat)
    ensures Valid(CountWords(Empty, texts))
    ensures var sel := Selected(CountWords(Empty, texts), minFreq, n);
            forall k :: 0 <= k < |sel| ==> !HasUpper(sel[k].0) && sel[k].1 == Occurrences(texts, sel[k].0) >= minFreq
  {
    var c := CountWords(Empty, texts);
    CountWordsKeys(Empty, texts);
    var sel := Selected(c, minFreq, n);
    SelectedItems(c, minFreq, n);
    forall k | 0 <= k < |sel|
      ensures !HasUpper(sel[k].0) && sel[k].1 == Occurrences(texts, sel[k].0)
    {
      CountWordsCounts(Empty, texts, sel[k].0);
    }
  }

  /** While there is room, every word occurring at least `minFreq` times is selected. */
  lemma SelectedAllFrequent(texts: seq<string>, minFreq: int, n: nat)
    ensures Valid(CountWords(Empty, texts))
    ensures var sel := Selected(CountWords(Empty, texts), minFreq, n);
            |sel| < n ==> forall w ::
              Occurrences(texts, w) > 0 && Occurrences(texts, w) >= minFreq ==> (w, Occurrences(texts, w)) in sel
  {
    var c := CountWords(Empty, texts);
    CountWordsKeys(Empty, texts);
    var sel := Selected(c, minFreq, n);
    SelectedItems(c, minFreq, n);
    if |sel| < n {
      forall w | Occurrences(texts, w) > 0 && Occurrences(texts, w) >= minFreq
        ensures (w, Occurrences(texts, w)) in sel
      {
        CountWordsCounts(Empty, texts, w);
        assert w in c.counts && c.counts[w] == Occurrences(texts, w);
      }
    }
  }

  /** The selection of `build_vocabulary`, when the configuration leaves room for the four
      reserved tokens: the words chosen from the counts of all contexts and responses,
      `max_vocab_size - 4` at most. */
  lemma SelectionProperties(cfg: ProcessingConfig, turns: seq<DialogueTurn>)
    requires cfg.maxVocabSize >= 4
    ensures var sel, texts := Selection(cfg, turns), VocabTexts(turns);
            && |sel| <= cfg.maxVocabSize - 4
            && NonIncreasing(sel)
            && Distinct(Words(sel))
            && (forall k :: 0 <= k < |sel| ==>
                  !HasUpper(sel[k].0) && sel[k].1 == Occurrences(texts, sel[k].0) >= cfg.minWordFreq)
            && (|sel| < cfg.maxVocabSize - 4 ==> forall w ::
                  Occurrences(texts, w) > 0 && Occurrences(texts, w) >= cfg.minWordFreq ==> (w, Occurrences(texts, w)) in sel)
            && (forall w, k ::
                  (Occurrences(texts, w) > 0 && Occurrences(texts, w) >= cfg.minWordFreq && (w, Occurrences(texts, w)) !in sel && 0 <= k < |sel|)
                  ==> Occurrences(texts, w) <= sel[k].1)
  {
    SelectionIsSelected(cfg, turns);
    SelectedFromTexts(VocabTexts(turns), cfg.minWordFreq, cfg.maxVocabSize - 4);
  }

  /** With room for the reserved tokens, the slice is the selection of the word counts. */
  lemma SelectionIsSelected(cfg: ProcessingConfig, turns: seq<DialogueTurn>)
    requires cfg.maxVocabSize >= 4
    ensures Valid(CountWords(Empty, VocabTexts(turns)))
    ensures Selection(cfg, turns) == Selected(CountWords(Empty, VocabTexts(turns)), cfg.minWordFreq, cfg.maxVocabSize - 4)
  {
    CountWordsKeys(Empty, VocabTexts(turns));
  }

  /** `dict` over items with distinct words maps each word to its count, and nothing else. */
  lemma {:induction false} PairMapAt(items: seq<(string, nat)>)
    requires Distinct(Words(items))
    ensures forall w :: w in PairMap(items) <==> w in Words(items)
    ensures forall k :: 0 <= k < |items| ==> PairMap(items)[items[k].0] == items[k].1
  {
    if items != [] {
      var init := items[..|items| - 1];
      assert Words(init) == Words(items)[..|items| - 1];
      PairMapAt(init);
      assert Words(items) == Words(init) + [items[|items| - 1].0];
      forall k | 0 <= k < |items| - 1
        ensures PairMap(items)[items[k].0] == items[k].1
      {
        assert items[k] == init[k];
        assert Words(items)[k] != Words(items)[|items| - 1];
      }
    }
  }

  /** Distinct reserved tokens keep the ids 0 to 3, and have no others. */
  lemma SpecialIdsAt(cfg: ProcessingConfig)
    requires Distinct([cfg.padToken, cfg.startToken, cfg.endToken, cfg.oovToken])
    ensures var s := SpecialIds(cfg);
            && cfg.padToken in s && s[cfg.padToken] == 0
            && cfg.startToken in s && s[cfg.startToken] == 1
            && cfg.endToken in s && s[cfg.endToken] == 2
            && cfg.oovToken in s && s[cfg.oovToken] == 3
            && (forall w :: w in s <==> w in [cfg.padToken, cfg.startToken, cfg.endToken, cfg.oovToken])
  {
    var specials := [cfg.padToken, cfg.startToken, cfg.endToken, cfg.oovToken];
    assert specials[0] != specials[1] && specials[0] != specials[2] && specials[0] != specials[3];
    assert specials[1] != specials[2] && specials[1] != specials[3] && specials[2] != specials[3];
  }

  /** The reserved entries followed by distinct words other than the reserved tokens,
      numbered from 4: the reserved tokens at ids 0 to 3, the words at 4, 5, ... in order, no
      other key, and no two keys sharing an id. */
  lemma NumberedWords(cfg: ProcessingConfig, words: seq<string>)
    requires Distinct([cfg.padToken, cfg.startToken, cfg.endToken, cfg.oovToken])
    requires Distinct(words) && forall k :: 0 <= k < |words| ==> words[k] !in SpecialIds(cfg)
    ensures var v := SpecialIds(cfg) + Tokens.IndexMap(words, 4);
            && cfg.padToken in v && v[cfg.padToken] == 0
            && cfg.startToken in v && v[cfg.startToken] == 1
            && cfg.endToken in v && v[cfg.endToken] == 2
            && cfg.oovToken in v && v[cfg.oovToken] == 3
            && (forall k :: 0 <= k < |words| ==> words[k] in v && v[words[k]] == 4 + k)
            && (forall w :: w in v <==> w in [cfg.padToken, cfg.startToken, cfg.endToken, cfg.oovToken] || w in words)
            && (forall a, b :: a in v && b in v && a != b ==> v[a] != v[b])
  {
    Tokens.IndexMapAt(words, 4);
    SpecialIdsAt(cfg);
    SpecialIdsApart(cfg);
    IndexMapApart(words, 4);
    UnionApart(SpecialIds(cfg), Tokens.IndexMap(words, 4));
  }

  /** No two keys of `m` share an id. */
  ghost predicate IdsApart(m: map<string, int>) {
    forall a, b :: a in m && b in m && a != b ==> m[a] != m[b]
  }

  /** The reserved entries take ids below 4, one each. */
  lemma SpecialIdsApart(cfg: ProcessingConfig)
    requires Distinct([cfg.padToken, cfg.startToken, cfg.endToken, cfg.oovToken])
    ensures IdsApart(SpecialIds(cfg)) && forall w :: w in SpecialIds(cfg) ==> 0 <= SpecialIds(cfg)[w] < 4
  {
    SpecialIdsAt(cfg);
  }

  /** Distinct words numbered from `base` take ids from `base` up, one each. */
  lemma IndexMapApart(words: seq<string>, base: int)
    requires Distinct(words)
    ensures IdsApart(Tokens.IndexMap(words, base))
    ensures forall w :: w in Tokens.IndexMap(words, base) ==> Tokens.IndexMap(words, base)[w] >= base
  {
    var m := Tokens.IndexMap(words, base);
    Tokens.IndexMapAt(words, base);
    forall a | a in m
      ensures exists i :: 0 <= i < |words| && a == words[i] && m[a] == base + i
    {
      var i :| 0 <= i < |words| && words[i] == a;
    }
  }

  /** Two maps without shared ids between them, each giving its keys ids apart, together give
      their keys ids apart. */
  lemma UnionApart(s: map<string, int>, m: map<string, int>)
    requires IdsApart(s) && IdsApart(m)
    requires forall w :: w in s ==> s[w] < 4
    requires forall w :: w in m ==> m[w] >= 4
    ensures IdsApart(s + m)
  {
  }

  /** A word without an upper-case letter is none of the reserved tokens. */
  lemma NoUpperNotReserved(cfg: ProcessingConfig, w: string)
    requires ReservedTokensApart(cfg) && !HasUpper(w)
    ensures w != cfg.padToken && w != cfg.startToken && w != cfg.endToken && w != cfg.oovToken
  {
  }

  /** The vocabulary `build_vocabulary` returns, when the reserved tokens are apart and there
      is room for them: the reserved tokens at ids 0 to 3, the selected words at 4, 5, ... in
      order, no other key, and no two keys sharing an id. */
  lemma VocabularyIds(cfg: ProcessingConfig, turns: seq<DialogueTurn>)
    requires cfg.maxVocabSize >= 4 && ReservedTokensApart(cfg)
    ensures var v, words := VocabularyOf(cfg, turns), Words(Selection(cfg, turns));
            && cfg.padToken in v && v[cfg.padToken] == 0
            && cfg.startToken in v && v[cfg.startToken] == 1
            && cfg.endToken in v && v[cfg.endToken] == 2
            && cfg.oovToken in v && v[cfg.oovToken] == 3
            && (forall k :: 0 <= k < |words| ==> words[k] in v && v[words[k]] == 4 + k)
            && (forall w :: w in v <==> w in [cfg.padToken, cfg.startToken, cfg.endToken, cfg.oovToken] || w in words)
            && (forall a, b :: a in v && b in v && a != b ==> v[a] != v[b])
  {
    var sel := Selection(cfg, turns);
    SelectionProperties(cfg, turns);
    SpecialIdsAt(cfg);
    forall k | 0 <= k < |sel|
      ensures Words(sel)[k] !in SpecialIds(cfg)
    {
      NoUpperNotReserved(cfg, sel[k].0);
    }
    NumberedWords(cfg, Words(sel));
  }

  /** The recorded `word_frequencies`: exactly the selected words, each with its number of
      occurrences over all contexts and responses, at least `min_word_freq`. */
  lemma WordFrequencies(cfg: ProcessingConfig, turns: seq<DialogueTurn>)
    requires cfg.maxVocabSize >= 4
    ensures var sel := Selection(cfg, turns);
            var f := PairMap(sel);
            && (forall w :: w in f <==> w in Words(sel))
            && (forall w :: w in f ==> f[w] == Occurrences(VocabTexts(turns), w) >= cfg.minWordFreq)
  {
    var sel := Selection(cfg, turns);
    SelectionProperties(cfg, turns);
    PairMapAt(sel);
    forall w | w in PairMap(sel)
      ensures PairMap(sel)[w] == Occurrences(VocabTexts(turns), w) >= cfg.minWordFreq
    {
      var k :| 0 <= k < |sel| && Words(sel)[k] == w;
    }
  }

  /** One `text.lower().split()` counted into the frequencies. */
  method CountText(c: Counter, text: string) returns (r: Counter)
    ensures r == AddAll(c, LowerWords(text))
  {
    var words := LowerWords(text);
    r := c;
    for j := 0 to |words|
      invariant r == AddAll(c, words[..j])
    {
      assert words[..j + 1][..j] == words[..j];
      r := Add(r, words[j]);
    }
    assert words[..|words|] == words;
  }

  /** The counting loops of `build_vocabulary`: every word of every context and response. */
  method CountTurns(turns: seq<DialogueTurn>) returns (wordFreq: Counter)
    ensures wordFreq == CountWords(Empty, VocabTexts(turns))
  {
    wordFreq := Empty;
    for i := 0 to |turns|
      invariant wordFreq == CountWords(Empty, VocabTexts(turns[..i]))
    {
      CountNextTurn(turns, i);
      wordFreq := CountText(wordFreq, turns[i].context);
      wordFreq := CountText(wordFreq, turns[i].response);
    }
    assert turns[..|turns|] == turns;
  }

  /** Counting the texts of one more turn counts its context, then its response. */
  lemma CountNextTurn(turns: seq<DialogueTurn>, i: nat)
    requires i < |turns|
    ensures CountWords(Empty, VocabTexts(turns[..i + 1]))
         == AddAll(AddAll(CountWords(Empty, VocabTexts(turns[..i])), LowerWords(turns[i].context)), LowerWords(turns[i].response))
  {
    var before, c, r := VocabTexts(turns[..i]), turns[i].context, turns[i].response;
    assert turns[..i + 1][..i] == turns[..i];
    assert VocabTexts(turns[..i + 1]) == before + [c, r];
    assert (before + [c, r])[..|before| + 1] == before + [c];
    assert (before + [c])[..|before|] == before;
  }

  /** The loop `for idx, (word, _) in enumerate(items, start=4): vocab[word] = idx`. */
  method NumberFrom(start: map<string, int>, items: seq<(string, nat)>) returns (vocab: map<string, int>)
    ensures vocab == start + Tokens.IndexMap(Words(items), 4)
  {
    ghost var words := Words(items);
    vocab := start;
    for j := 0 to |items|
      invariant vocab == start + Tokens.IndexMap(words[..j], 4)
    {
      assert words[..j + 1][..j] == words[..j];
      Tokens.MapUnionUpdate(start, Tokens.IndexMap(words[..j], 4), words[j], 4 + j);
      vocab := vocab[items[j].0 := 4 + j];
    }
    assert words[..|items|] == words;
  }

  // ---------------------------------------------------------------------------------------
  // augment_dialogues
  // ---------------------------------------------------------------------------------------

  const CONTEXT_SHUFFLE: string := "context_shuffle"

  /** The message `random.sample` raises for a negative sample size. */
  const SAMPLE_ERROR: string := "Sample larger than population or is negative"

  /** Python's `int(x)` for a float: truncation toward zero. */
  function Trunc(x: real): int {
    if x >= 0.0 then x.Floor else -((-x).Floor)
  }

  /** `min(int(len(turns) * augment_ratio), len(turns))`. */
  function SampleSize(cfg: ProcessingConfig, n: nat): int {
    var num := Trunc(n as real * cfg.augmentRatio);
    if num < n then num else n
  }

  /** The number of middle words one shuffle reorders: all but the first and last word of a
      context of more than three words. */
  function MiddleLength(t: DialogueTurn): nat {
    var n := |Split(t.context)|;
    if n > 3 then n - 2 else 0
  }

  /** The outcomes of `random.shuffle`: for each turn, the reordering its middle words get
      if it is picked. */
  predicate ShuffleOracle(turns: seq<DialogueTurn>, shuffles: seq<seq<int>>) {
    |shuffles| == |turns| &&
    forall i :: 0 <= i < |turns| ==> Sequences.IsPermutation(shuffles[i], MiddleLength(turns[i]))
  }

  /** The turn built from `t` with the middle words of its context reordered by `perm`. */
  function Shuffled(t: DialogueTurn, perm: seq<int>): DialogueTurn
    requires |Split(t.context)| > 3 && Sequences.IsPermutation(perm, MiddleLength(t))
  {
    var words := Split(t.context);
    var middle := words[1..|words| - 1];
    Sequences.PermutationBounds(perm, |middle|);
    DialogueTurn(Join([words[0]] + Sequences.Permute(middle, perm) + [words[|words| - 1]], " "),
                 t.response, AugmentedMeta(CONTEXT_SHUFFLE))
  }

  /** The turns appended for the picked indices, in order; contexts of three words or fewer
      give none. */
  function Added(turns: seq<DialogueTurn>, picks: seq<int>, shuffles: seq<seq<int>>): seq<DialogueTurn>
    requires ShuffleOracle(turns, shuffles)
    requires forall k :: 0 <= k < |picks| ==> 0 <= picks[k] < |turns|
  {
    if picks == [] then []
    else
      var p := picks[|picks| - 1];
      Added(turns, picks[..|picks| - 1], shuffles) +
        if |Split(turns[p].context)| > 3 then [Shuffled(turns[p], shuffles[p])] else []
  }

  /** `augment_dialogues`, with `random.sample` drawing the turns at `order[..k]` of a
      permutation `order` of the indices and `random.shuffle` reordering as `shuffles` says. */
  function Augment(cfg: ProcessingConfig, turns: seq<DialogueTurn>, techniques: Option<seq<string>>,
                   order: seq<int>, shuffles: seq<seq<int>>): Result<seq<DialogueTurn>, string>
    requires Sequences.IsPermutation(order, |turns|) && ShuffleOracle(turns, shuffles)
  {
    if !cfg.augmentationEnabled then Ok(turns)
    else
      var techs := if techniques.Some? then techniques.value else [CONTEXT_SHUFFLE];
      var k := SampleSize(cfg, |turns|);
      if k < 0 then Err(SAMPLE_ERROR)
      else
        Sequences.PermutationBounds(order, |turns|);
        Ok(turns + if CONTEXT_SHUFFLE in techs then Added(turns, order[..k], shuffles) else [])
  }

  /** One augmented turn made from `t`: the same response, tagged as a context shuffle, and a
      context of the same words with the first and last in place. */
  predicate ShuffleOf(t: DialogueTurn, u: DialogueTurn) {
    var a, b := Split(t.context), Split(u.context);
    && u.response == t.response && u.metadata == AugmentedMeta(CONTEXT_SHUFFLE)
    && |a| > 3 && |b| == |a|
    && b[0] == a[0] && b[|b| - 1] == a[|a| - 1]
    && multiset(b[1..|b| - 1]) == multiset(a[1..|a| - 1])
  }

  lemma ShuffledShape(t: DialogueTurn, perm: seq<int>)
    requires |Split(t.context)| > 3 && Sequences.IsPermutation(perm, MiddleLength(t))
    ensures ShuffleOf(t, Shuffled(t, perm))
  {
    var words := Split(t.context);
    var middle := words[1..|words| - 1];
    Sequences.PermutePreserves(middle, perm);
    var p := Sequences.Permute(middle, perm);
    var ws := [words[0]] + p + [words[|words| - 1]];
    ShuffledWords(words, perm);
    SplitJoin(ws);
    var u := Shuffled(t, perm);
    assert Split(u.context) == ws;
    assert ws[1..|ws| - 1] == p;
    assert |ws| == |words| && ws[0] == words[0] && ws[|ws| - 1] == words[|words| - 1];
  }

  /** Words reordered in the middle are still non-empty and free of whitespace, so joining
      them is undone by splitting. */
  lemma ShuffledWords(words: seq<string>, perm: seq<int>)
    requires |words| > 3 && forall k :: 0 <= k < |words| ==> |words[k]| > 0 && NoSpace(words[k])
    requires forall i :: 0 <= i < |perm| ==> 0 <= perm[i] < |words| - 2
    ensures var ws := [words[0]] + Sequences.Permute(words[1..|words| - 1], perm) + [words[|words| - 1]];
            forall k :: 0 <= k < |ws| ==> |ws[k]| > 0 && NoSpace(ws[k])
  {
    var middle := words[1..|words| - 1];
    var ws := [words[0]] + Sequences.Permute(middle, perm) + [words[|words| - 1]];
    forall k | 0 <= k < |ws|
      ensures |ws[k]| > 0 && NoSpace(ws[k])
    {
      if 0 < k < |ws| - 1 {
        assert ws[k] == middle[perm[k - 1]] == words[1 + perm[k - 1]];
      }
    }
  }

  /** The context shuffle of one turn: the middle words reordered, the first and last kept. */
  method ShuffleContext(t: DialogueTurn, perm: seq<int>) returns (u: DialogueTurn)
    requires |Split(t.context)| > 3 && Sequences.IsPermutation(perm, MiddleLength(t))
    ensures u == Shuffled(t, perm)
  {
    var words := Split(t.context);
    var middle := words[1..|words| - 1];
    Sequences.PermutationBounds(perm, |middle|);
    var shuffledMiddle := Sequences.Permute(middle, perm);
    var shuffledContext := Join([words[0]] + shuffledMiddle + [words[|words| - 1]], " ");
    u := DialogueTurn(shuffledContext, t.response, AugmentedMeta(CONTEXT_SHUFFLE));
  }

  /** The loop of `augment_dialogues` over the sampled turns, appending to a copy of all
      turns. */
  method AppendShuffles(turns: seq<DialogueTurn>, picks: seq<int>, techs: seq<string>, shuffles: seq<seq<int>>)
    returns (augmented: seq<DialogueTurn>)
    requires ShuffleOracle(turns, shuffles)
    requires forall k :: 0 <= k < |picks| ==> 0 <= picks[k] < |turns|
    ensures augmented == turns + if CONTEXT_SHUFFLE in techs then Added(turns, picks, shuffles) else []
  {
    augmented := turns;
    for j := 0 to |picks|
      invariant augmented == turns + if CONTEXT_SHUFFLE in techs then Added(turns, picks[..j], shuffles) else []
    {
      AddedNext(turns, picks, shuffles, j);
      var p := picks[j];
      if CONTEXT_SHUFFLE in techs {
        var words := Split(turns[p].context);
        if |words| > 3 {
          var shuffled := ShuffleContext(turns[p], shuffles[p]);
          augmented := augmented + [shuffled];
        }
        assert augmented == turns + Added(turns, picks[..j + 1], shuffles);
      }
    }
    assert picks[..|picks|] == picks;
  }

  /** One more pick adds its shuffle exactly when its context has more than three words. */
  lemma AddedNext(turns: seq<DialogueTurn>, picks: seq<int>, shuffles: seq<seq<int>>, j: nat)
    requires ShuffleOracle(turns, shuffles)
    requires forall k :: 0 <= k < |picks| ==> 0 <= picks[k] < |turns|
    requires j < |picks|
    ensures |Split(turns[picks[j]].context)| > 3 ==>
              Added(turns, picks[..j + 1], shuffles) == Added(turns, picks[..j], shuffles) + [Shuffled(turns[picks[j]], shuffles[picks[j]])]
    ensures |Split(turns[picks[j]].context)| <= 3 ==> Added(turns, picks[..j + 1], shuffles) == Added(turns, picks[..j], shuffles)
  {
    assert picks[..j + 1][..j] == picks[..j];
  }

  /** At most one turn is added per pick, and each added turn is a shuffle of a picked one. */
  lemma {:induction false} AddedTurns(turns: seq<DialogueTurn>, picks: seq<int>, shuffles: seq<seq<int>>)
    requires ShuffleOracle(turns, shuffles)
    requires forall k :: 0 <= k < |picks| ==> 0 <= picks[k] < |turns|
    ensures |Added(turns, picks, shuffles)| <= |picks|
    ensures forall j :: 0 <= j < |Added(turns, picks, shuffles)| ==>
              exists k :: 0 <= k < |picks| && ShuffleOf(turns[picks[k]], Added(turns, picks, shuffles)[j])
  {
    if picks != [] {
      var init := picks[..|picks| - 1];
      var p := picks[|picks| - 1];
      AddedTurns(turns, init, shuffles);
      var a := Added(turns, init, shuffles);
      var r := Added(turns, picks, shuffles);
      forall j | 0 <= j < |r|
        ensures exists k :: 0 <= k < |picks| && ShuffleOf(turns[picks[k]], r[j])
      {
        if j < |a| {
          var k :| 0 <= k < |init| && ShuffleOf(turns[init[k]], a[j]);
          assert picks[k] == init[k];
        } else {
          ShuffledShape(turns[p], shuffles[p]);
          assert ShuffleOf(turns[picks[|picks| - 1]], r[j]);
        }
      }
    }
  }

  /** Each turn added for the first `k` indices of `order` is a shuffle of one of them. */
  lemma AddedFromOrder(turns: seq<DialogueTurn>, order: seq<int>, k: nat, shuffles: seq<seq<int>>)
    requires ShuffleOracle(turns, shuffles)
    requires k <= |order| && forall i :: 0 <= i < |order| ==> 0 <= order[i] < |turns|
    ensures forall j :: |turns| <= j < |turns + Added(turns, order[..k], shuffles)| ==>
              exists i :: 0 <= i < k && ShuffleOf(turns[order[i]], (turns + Added(turns, order[..k], shuffles))[j])
  {
    var picks := order[..k];
    AddedTurns(turns, picks, shuffles);
    var added := Added(turns, picks, shuffles);
    forall j | |turns| <= j < |turns + added|
      ensures exists i :: 0 <= i < k && ShuffleOf(turns[order[i]], (turns + added)[j])
    {
      assert (turns + added)[j] == added[j - |turns|];
      var i :| 0 <= i < |picks| && ShuffleOf(turns[picks[i]], added[j - |turns|]);
      assert picks[i] == order[i];
    }
  }

  /** The sample size is never above the number of turns; it is never negative when the
      ratio is not, and then it is the floor of the product up to a ratio of one. */
  lemma SampleSizeBounds(cfg: ProcessingConfig, n: nat)
    ensures SampleSize(cfg, n) <= n
    ensures 0.0 <= cfg.augmentRatio ==> SampleSize(cfg, n) >= 0
    ensures 0.0 <= cfg.augmentRatio <= 1.0 ==> SampleSize(cfg, n) == (n as real * cfg.augmentRatio).Floor
  {
    if 0.0 <= cfg.augmentRatio {
      var x := n as real * cfg.augmentRatio;
      assert x >= 0.0;
      if cfg.augmentRatio <= 1.0 {
        assert x <= n as real;
      }
    }
  }

  /** Augmentation fails exactly when enabled with a negative sample size; disabled, it
      returns the turns; otherwise the originals come first, followed by at most one shuffled
      turn per sampled one, and nothing is added when the techniques omit the context
      shuffle. */
  lemma AugmentOutcome(cfg: ProcessingConfig, turns: seq<DialogueTurn>, techniques: Option<seq<string>>,
                       order: seq<int>, shuffles: seq<seq<int>>)
    requires Sequences.IsPermutation(order, |turns|) && ShuffleOracle(turns, shuffles)
    ensures var r := Augment(cfg, turns, techniques, order, shuffles);
            && (r.Err? <==> cfg.augmentationEnabled && SampleSize(cfg, |turns|) < 0)
            && (!cfg.augmentationEnabled ==> r == Ok(turns))
            && (r.Ok? ==> turns <= r.value && |r.value| <= |turns| + if cfg.augmentationEnabled then SampleSize(cfg, |turns|) else 0)
            && (r.Ok? && techniques.Some? && CONTEXT_SHUFFLE !in techniques.value ==> r.value == turns)
  {
    Sequences.PermutationBounds(order, |turns|);
    var k := SampleSize(cfg, |turns|);
    if cfg.augmentationEnabled && k >= 0 {
      SampleSizeBounds(cfg, |turns|);
      AddedTurns(turns, order[..k], shuffles);
    }
  }

  /** Every augmented turn is a context shuffle of one of the sampled turns. */
  lemma AugmentedAreShuffles(cfg: ProcessingConfig, turns: seq<DialogueTurn>, techniques: Option<seq<string>>,
                             order: seq<int>, shuffles: seq<seq<int>>)
    requires Sequences.IsPermutation(order, |turns|) && ShuffleOracle(turns, shuffles)
    requires Augment(cfg, turns, techniques, order, shuffles).Ok?
    ensures var r := Augment(cfg, turns, techniques, order, shuffles).value;
            forall j :: |turns| <= j < |r| ==>
              exists k :: 0 <= k < |order| && k < SampleSize(cfg, |turns|) && 0 <= order[k] < |turns| && ShuffleOf(turns[order[k]], r[j])
  {
    Sequences.PermutationBounds(order, |turns|);
    var r := Augment(cfg, turns, techniques, order, shuffles).value;
    if cfg.augmentationEnabled {
      var k := SampleSize(cfg, |turns|);
      var techs := if techniques.Some? then techniques.value else [CONTEXT_SHUFFLE];
      if CONTEXT_SHUFFLE in techs {
        AddedFromOrder(turns, order, k, shuffles);
        assert r == turns + Added(turns, order[..k], shuffles);
      }
    }
  }

  // ---------------------------------------------------------------------------------------
  // EnhancedDialogueProcessor
  // ---------------------------------------------------------------------------------------

  /** The processor's configuration and the state `build_vocabulary` leaves behind. */
  class Processor {
    const config: ProcessingConfig
    var vocabulary: set<string>
    var wordFrequencies: map<string, nat>
    var seenDialogues: set<string>

    /** A processor with the configuration its override dictionaries produce, and empty
        storage. */
    constructor (config: ProcessingConfig)
      ensures this.config == config
      ensures vocabulary == {} && wordFrequencies == map[] && seenDialogues == {}
    {
      this.config := config;
      vocabulary := {};
      wordFrequencies := map[];
      seenDialogues := {};
    }

    /** `_apply_quality_filters`: the turns whose lengths and word counts are in range. */
    method ApplyQualityFilters(turns: seq<DialogueTurn>) returns (filtered: seq<DialogueTurn>)
      ensures filtered == Filter(config, turns)
    {
      filtered := [];
      for i := 0 to |turns|
        invariant filtered == Filter(config, turns[..i])
      {
        assert turns[..i + 1][..i] == turns[..i];
        var turn := turns[i];
        var contextLen, responseLen := |turn.context|, |turn.response|;
        if contextLen < config.minDialogueLength { continue; }
        if responseLen < config.minDialogueLength { continue; }
        if contextLen > config.maxDialogueLength { continue; }
        if responseLen > config.maxDialogueLength { continue; }
        var contextWords, responseWords := |Split(turn.context)|, |Split(turn.response)|;
        if contextWords < config.minWordCount { continue; }
        if responseWords < config.minWordCount { continue; }
        if contextWords > config.maxWordCount { continue; }
        if responseWords > config.maxWordCount { continue; }
        filtered := filtered + [turn];
      }
      assert turns[..|turns|] == turns;
    }

    /** `build_vocabulary`: returns the vocabulary and records its keys and the selected
        word counts. */
    method BuildVocabulary(turns: seq<DialogueTurn>) returns (vocab: map<string, int>)
      modifies this
      ensures vocab == VocabularyOf(config, turns)
      ensures vocabulary == vocab.Keys
      ensures wordFrequencies == PairMap(Selection(config, turns))
      ensures seenDialogues == old(seenDialogues)
    {
      var wordFreq := CountTurns(turns);
      CountWordsKeys(Empty, VocabTexts(turns));
      var ranked := RankByCount(Frequent(wordFreq, config.minWordFreq));
      var sortedWords := ranked[..Sequences.SliceBound(config.maxVocabSize - 4, |ranked|)];
      ghost var sel := Selection(config, turns);
      assert sortedWords == sel;
      var frequencies := PairMap(sortedWords);
      assert frequencies == PairMap(sel);
      vocab := SpecialIds(config);
      vocab := NumberFrom(vocab, sortedWords);
      vocabulary := vocab.Keys;
      wordFrequencies := frequencies;
    }

    /** `augment_dialogues`, with the draws of `random.sample` and `random.shuffle` given as
        `order` and `shuffles`. */
    method AugmentDialogues(turns: seq<DialogueTurn>, techniques: Option<seq<string>>,
                            order: seq<int>, shuffles: seq<seq<int>>)
      returns (r: Result<seq<DialogueTurn>, string>)
      requires Sequences.IsPermutation(order, |turns|) && ShuffleOracle(turns, shuffles)
      ensures r == Augment(config, turns, techniques, order, shuffles)
    {
      if !config.augmentationEnabled {
        return Ok(turns);
      }
      var techs := if techniques.Some? then techniques.value else [CONTEXT_SHUFFLE];
      var k := SampleSize(config, |turns|);
      if k < 0 {
        return Err(SAMPLE_ERROR);
      }
      Sequences.PermutationBounds(order, |turns|);
      var toAugment := order[..k];
      var augmented := AppendShuffles(turns, toAugment, techs, shuffles);
      return Ok(augmented);
    }
  }
}
