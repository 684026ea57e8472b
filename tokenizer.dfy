/** The word-level tokenizer: lower-casing, punctuation split off as tokens, a
    frequency-ranked vocabulary with four reserved ids, and encoding/decoding between text and
    id sequences. */
module Tokens {
  import opened Text
  import opened Counting

  const PAD: int := 0
  const START: int := 1
  const END: int := 2
  const UNK: int := 3

  const PAD_TOKEN: string := "<PAD>"
  const START_TOKEN: string := "<START>"
  const END_TOKEN: string := "<END>"
  const UNK_TOKEN: string := "<UNK>"

  /** The reserved part of `word2idx` and of `idx2word`, as a new tokenizer has them. */
  const SPECIAL_IDS: map<string, int> := map[PAD_TOKEN := PAD, START_TOKEN := START, END_TOKEN := END, UNK_TOKEN := UNK]
  const SPECIAL_WORDS: map<int, string> := map[PAD := PAD_TOKEN, START := START_TOKEN, END := END_TOKEN, UNK := UNK_TOKEN]

  /** The punctuation `_tokenize` splits off: `? . ! , '`. */
  predicate IsPunct(c: char) {
    c == '?' || c == '.' || c == '!' || c == ',' || c == '\''
  }

  /** `re.sub(r"([?.!,'])", r" \1 ", s)`: a space on each side of every punctuation mark. */
  function SpacePunct(s: string): (r: string)
    ensures forall i :: 0 <= i < |r| ==> r[i] == ' ' || r[i] in s
  {
    if s == [] then []
    else (if IsPunct(s[0]) then [' ', s[0], ' '] else [s[0]]) + SpacePunct(s[1..])
  }

  /** Only spaces are added: the characters other than whitespace are those of `s`, in order. */
  lemma {:induction false} SpacePunctNonSpace(s: string)
    ensures NonSpace(SpacePunct(s)) == NonSpace(s)
  {
    if s != [] {
      SpacePunctNonSpace(s[1..]);
      var head := if IsPunct(s[0]) then [' ', s[0], ' '] else [s[0]];
      NonSpaceAppend(head, SpacePunct(s[1..]));
      if IsPunct(s[0]) {
        assert NonSpace(head) == NonSpace([s[0], ' ']) == [s[0]] + NonSpace([' ']);
      }
    }
  }

  /** A punctuation-spaced string: every mark has a space on both sides. */
  predicate PaddedAt(t: string, k: int)
    requires 0 <= k < |t|
  {
    IsPunct(t[k]) ==> 0 < k < |t| - 1 && t[k - 1] == ' ' && t[k + 1] == ' '
  }

  predicate Padded(t: string) {
    forall k :: 0 <= k < |t| ==> PaddedAt(t, k)
  }

  lemma {:induction false} SpacePunctPadded(s: string)
    ensures Padded(SpacePunct(s))
  {
    if s != [] {
      SpacePunctPadded(s[1..]);
      var rest := SpacePunct(s[1..]);
      var head := if IsPunct(s[0]) then [' ', s[0], ' '] else [s[0]];
      var t := head + rest;
      forall k | 0 <= k < |t|
        ensures PaddedAt(t, k)
      {
        if k >= |head| {
          assert PaddedAt(rest, k - |head|);
        }
      }
    }
  }

  lemma PaddedIsolated(t: string)
    requires Padded(t)
    ensures Isolated(t, IsPunct)
  {
    forall k | 0 <= k < |t|
      ensures IsolatedAt(t, IsPunct, k)
    {
      assert PaddedAt(t, k);
    }
  }

  /** `_tokenize`. */
  function Tokenize(text: string): seq<string> {
    Split(SpacePunct(Lower(text)))
  }

  /** Every token is a non-empty run of non-whitespace without upper-case ASCII letters, and a
      token holding a punctuation mark is that mark alone. */
  lemma TokenShape(text: string)
    ensures forall k :: 0 <= k < |Tokenize(text)| ==>
              var tok := Tokenize(text)[k];
              && |tok| > 0 && NoSpace(tok)
              && (forall i :: 0 <= i < |tok| ==> !('A' <= tok[i] <= 'Z'))
              && (forall i :: 0 <= i < |tok| && IsPunct(tok[i]) ==> tok == [tok[i]])
  {
    var t := SpacePunct(Lower(text));
    SplitChars(t);
    SpacePunctPadded(Lower(text));
    PaddedIsolated(t);
    SplitIsolated(t, IsPunct);
    forall k, i | 0 <= k < |Split(t)| && 0 <= i < |Split(t)[k]|
      ensures !('A' <= Split(t)[k][i] <= 'Z')
    {
      var c := Split(t)[k][i];
      assert c in t && c != ' ';
      assert c in Lower(text);
    }
  }

  /** The tokens, run together, are the lower-cased text without its whitespace: nothing of
      the text is lost, added or reordered. */
  lemma TokensOfText(text: string)
    ensures Concat(Tokenize(text)) == NonSpace(Lower(text))
  {
    ConcatSplit(SpacePunct(Lower(text)));
    SpacePunctNonSpace(Lower(text));
  }

  /** No token is one of the reserved words, which all hold upper-case letters. */
  lemma TokensNotSpecial(text: string)
    ensures forall k :: 0 <= k < |Tokenize(text)| ==> Tokenize(text)[k] !in SPECIAL_IDS
  {
    TokenShape(text);
    forall k | 0 <= k < |Tokenize(text)|
      ensures Tokenize(text)[k] !in SPECIAL_IDS
    {
      var tok := Tokenize(text)[k];
      if |tok| >= 2 {
        assert !('A' <= tok[1] <= 'Z');
      }
    }
  }

  /** The counts after `word_counts.update(words)` for each text in turn. */
  function CountTexts(c: Counter, texts: seq<string>): Counter {
    if |texts| == 0 then c else AddAll(CountTexts(c, texts[..|texts| - 1]), Tokenize(texts[|texts| - 1]))
  }

  /** How often `w` occurs among the tokens of all texts. */
  function Occurrences(texts: seq<string>, w: string): nat {
    if |texts| == 0 then 0 else Occurrences(texts[..|texts| - 1], w) + multiset(Tokenize(texts[|texts| - 1]))[w]
  }

  lemma {:induction false} CountTextsCounts(c: Counter, texts: seq<string>, w: string)
    ensures Get(CountTexts(c, texts), w) == Get(c, w) + Occurrences(texts, w)
  {
    if |texts| > 0 {
      CountTextsCounts(c, texts[..|texts| - 1], w);
      AddAllCounts(CountTexts(c, texts[..|texts| - 1]), Tokenize(texts[|texts| - 1]), w);
    }
  }

  /** Counting keeps the counter well formed, and every counted word is a token of some text. */
  lemma {:induction false} CountTextsKeys(c: Counter, texts: seq<string>)
    requires Valid(c)
    ensures Valid(CountTexts(c, texts))
    ensures forall w :: w in CountTexts(c, texts).keys ==>
              w in c.keys || exists t :: 0 <= t < |texts| && w in Tokenize(texts[t])
  {
    if |texts| > 0 {
      var init := texts[..|texts| - 1];
      CountTextsKeys(c, init);
      AddAllValid(CountTexts(c, init), Tokenize(texts[|texts| - 1]));
      AddAllKeys(CountTexts(c, init), Tokenize(texts[|texts| - 1]));
      forall w | w in CountTexts(c, texts).keys
        ensures w in c.keys || exists t :: 0 <= t < |texts| && w in Tokenize(texts[t])
      {
        if w !in c.keys && w !in Tokenize(texts[|texts| - 1]) {
          var t :| 0 <= t < |init| && w in Tokenize(init[t]);
          assert init[t] == texts[t];
        }
      }
    }
  }

  /** The `word2idx` entries `enumerate(words, start=base)` assigns, one after another. */
  function IndexMap(words: seq<string>, base: int): map<string, int> {
    if |words| == 0 then map[] else IndexMap(words[..|words| - 1], base)[words[|words| - 1] := base + |words| - 1]
  }

  /** The `idx2word` entries assigned alongside. */
  function WordMap(words: seq<string>, base: int): map<int, string> {
    if |words| == 0 then map[] else WordMap(words[..|words| - 1], base)[base + |words| - 1 := words[|words| - 1]]
  }

  /** Distinct words get consecutive indices from `base`, and nothing else gets one. */
  lemma {:induction false} IndexMapAt(words: seq<string>, base: int)
    requires Distinct(words)
    ensures forall w :: w in IndexMap(words, base) <==> w in words
    ensures forall k :: 0 <= k < |words| ==> IndexMap(words, base)[words[k]] == base + k
  {
    if |words| > 0 {
      var init := words[..|words| - 1];
      IndexMapAt(init, base);
      assert words == init + [words[|words| - 1]];
      forall k | 0 <= k < |words| - 1
        ensures IndexMap(words, base)[words[k]] == base + k
      {
        assert words[k] == init[k] && words[k] != words[|words| - 1];
      }
      assert forall w :: w in words <==> w in init || w == words[|words| - 1];
    }
  }

  /** The indices from `base` to `base + |words| - 1` name the words in order. */
  lemma {:induction false} WordMapAt(words: seq<string>, base: int)
    ensures forall i :: i in WordMap(words, base) <==> base <= i < base + |words|
    ensures forall k :: 0 <= k < |words| ==> WordMap(words, base)[base + k] == words[k]
  {
    if |words| > 0 {
      var init := words[..|words| - 1];
      WordMapAt(init, base);
      forall k | 0 <= k < |words| - 1
        ensures base + k in WordMap(words, base) && WordMap(words, base)[base + k] == words[k]
      {
        assert words[k] == init[k];
      }
    }
  }

  lemma MapUnionUpdate<K, V>(a: map<K, V>, b: map<K, V>, k: K, v: V)
    ensures a + b[k := v] == (a + b)[k := v]
  {
  }

  /** `word2idx` and `idx2word` are inverse tables. */
  predicate Inverse(w2i: map<string, int>, i2w: map<int, string>) {
    (forall w :: w in w2i ==> w2i[w] in i2w && i2w[w2i[w]] == w) &&
    (forall i :: i in i2w ==> i2w[i] in w2i && w2i[i2w[i]] == i)
  }

  /** The reserved words keep their ids. */
  predicate KeepsSpecials(w2i: map<string, int>) {
    && PAD_TOKEN in w2i && w2i[PAD_TOKEN] == PAD
    && START_TOKEN in w2i && w2i[START_TOKEN] == START
    && END_TOKEN in w2i && w2i[END_TOKEN] == END
    && UNK_TOKEN in w2i && w2i[UNK_TOKEN] == UNK
  }

  /** The words one fit selects: at most `vocabSize - 4` of them, each counted at least
      `minFreq` times, most frequent first. */
  function TopWords(c: Counter, minFreq: int, vocabSize: int): seq<string>
    requires Valid(c) && vocabSize >= 4
  {
    Words(Selected(c, minFreq, vocabSize - 4))
  }

  /** The reserved tables are inverse, over the ids 0 to 3. */
  lemma SpecialsInverse()
    ensures Inverse(SPECIAL_IDS, SPECIAL_WORDS)
    ensures forall i :: i in SPECIAL_WORDS <==> 0 <= i < 4
    ensures KeepsSpecials(SPECIAL_IDS)
  {
  }

  /** `enumerate` over distinct words gives inverse tables. */
  lemma IndexWordInverse(words: seq<string>, base: int)
    requires Distinct(words)
    ensures Inverse(IndexMap(words, base), WordMap(words, base))
  {
    IndexMapAt(words, base);
    WordMapAt(words, base);
    var w2i := IndexMap(words, base);
    var i2w := WordMap(words, base);
    forall w | w in w2i
      ensures w2i[w] in i2w && i2w[w2i[w]] == w
    {
      var k :| 0 <= k < |words| && words[k] == w;
    }
    forall i | i in i2w
      ensures i2w[i] in w2i && w2i[i2w[i]] == i
    {
      assert i2w[base + (i - base)] == words[i - base];
    }
  }

  /** Two pairs of inverse tables over disjoint words and disjoint ids make one. */
  lemma InverseUnion(w1: map<string, int>, i1: map<int, string>, w2: map<string, int>, i2: map<int, string>)
    requires Inverse(w1, i1) && Inverse(w2, i2)
    requires forall w :: w in w2 ==> w !in w1
    requires forall i :: i in i2 ==> i !in i1
    ensures Inverse(w1 + w2, i1 + i2)
  {
    var w := w1 + w2;
    var i := i1 + i2;
    forall x | x in w
      ensures w[x] in i && i[w[x]] == x
    {
      if x in w2 {
        assert w2[x] in i2;
      } else {
        var id := w1[x];
        assert id in i1;
        assert id !in i2;
      }
    }
    forall y | y in i
      ensures i[y] in w && w[i[y]] == y
    {
      if y in i2 {
        assert i2[y] in w2;
      } else {
        assert i1[y] in w1 && i1[y] !in w2;
      }
    }
  }

  /** The tables of a tokenizer that numbered `words` from 4: inverse, the reserved ids kept,
      and the words at ids 4, 5, ... in order. */
  predicate FreshTables(words: seq<string>, w2i: map<string, int>, i2w: map<int, string>) {
    && Inverse(w2i, i2w)
    && KeepsSpecials(w2i)
    && forall k :: 0 <= k < |words| ==>
         words[k] in w2i && w2i[words[k]] == 4 + k && 4 + k in i2w && i2w[4 + k] == words[k]
  }

  /** The tables a new tokenizer has after `words` are given ids from 4. */
  lemma FitTables(words: seq<string>)
    requires Distinct(words)
    requires forall k :: 0 <= k < |words| ==> words[k] !in SPECIAL_IDS
    ensures FreshTables(words, SPECIAL_IDS + IndexMap(words, 4), SPECIAL_WORDS + WordMap(words, 4))
  {
    IndexMapAt(words, 4);
    WordMapAt(words, 4);
    SpecialsInverse();
    IndexWordInverse(words, 4);
    InverseUnion(SPECIAL_IDS, SPECIAL_WORDS, IndexMap(words, 4), WordMap(words, 4));
    assert forall k :: 0 <= k < |words| ==> words[k] in IndexMap(words, 4) && 4 + k in WordMap(words, 4);
  }

  /** The words selected from the counts of `texts` are tokens, hence not reserved, and carry
      their number of occurrences over all texts. */
  lemma SelectionFromTexts(texts: seq<string>, minFreq: int, n: nat)
    ensures Valid(CountTexts(Empty, texts))
    ensures var sel := Selected(CountTexts(Empty, texts), minFreq, n);
            forall k :: 0 <= k < |sel| ==> sel[k].0 !in SPECIAL_IDS && sel[k].1 == Occurrences(texts, sel[k].0)
  {
    var c := CountTexts(Empty, texts);
    CountTextsKeys(Empty, texts);
    var sel := Selected(c, minFreq, n);
    SelectedProperties(c, minFreq, n);
    forall k | 0 <= k < |sel|
      ensures sel[k].0 !in SPECIAL_IDS && sel[k].1 == Occurrences(texts, sel[k].0)
    {
      assert sel[k].0 in c.keys;
      var t :| 0 <= t < |texts| && sel[k].0 in Tokenize(texts[t]);
      TokensNotSpecial(texts[t]);
      CountTextsCounts(Empty, texts, sel[k].0);
    }
  }

  /** One `fit_on_texts` on a new tokenizer: the two tables are inverse; the reserved words
      keep ids 0 to 3; the selected words get the ids from 4 in order; each was counted at
      least `minFreq` times over all texts, counts do not increase along the ids, and at most
      `vocabSize - 4` words are added. */
  lemma FreshFit(texts: seq<string>, minFreq: int, vocabSize: int)
    requires vocabSize >= 4
    ensures Valid(CountTexts(Empty, texts))
    ensures var sel := Selected(CountTexts(Empty, texts), minFreq, vocabSize - 4);
            var top := Words(sel);
            && FreshTables(top, SPECIAL_IDS + IndexMap(top, 4), SPECIAL_WORDS + WordMap(top, 4))
            && (forall k :: 0 <= k < |sel| ==> sel[k].1 == Occurrences(texts, top[k]) >= minFreq)
            && NonIncreasing(sel)
            && |top| <= vocabSize - 4
  {
    var c := CountTexts(Empty, texts);
    var n := vocabSize - 4;
    SelectionFromTexts(texts, minFreq, n);
    SelectedProperties(c, minFreq, n);
    var sel := Selected(c, minFreq, n);
    var top := Words(sel);
    assert forall k :: 0 <= k < |top| ==> top[k] !in SPECIAL_IDS;
    FitTables(top);
  }

  class Tokenizer {
    const vocabSize: int
    const minFreq: int
    var word2idx: map<string, int>
    var idx2word: map<int, string>
    var wordCounts: Counter
    var vocabBuilt: bool

    ghost predicate Valid()
      reads this
    {
      Counting.Valid(wordCounts)
    }

    /** `Tokenizer(vocab_size, min_freq)`: only the reserved words, nothing counted. */
    constructor (vocabSize: int, minFreq: int)
      ensures this.vocabSize == vocabSize && this.minFreq == minFreq
      ensures word2idx == SPECIAL_IDS && idx2word == SPECIAL_WORDS
      ensures wordCounts == Empty && !vocabBuilt
      ensures Valid() && Inverse(word2idx, idx2word)
    {
      this.vocabSize := vocabSize;
      this.minFreq := minFreq;
      word2idx := SPECIAL_IDS;
      idx2word := SPECIAL_WORDS;
      wordCounts := Empty;
      vocabBuilt := false;
    }

    /** `fit_on_texts`: counts accumulate over calls; the words selected from the accumulated
        counts are (re)assigned ids from 4 on, over the existing tables. */
    method FitOnTexts(texts: seq<string>)
      requires Valid() && vocabSize >= 4
      modifies this
      ensures Valid() && vocabBuilt
      ensures wordCounts == CountTexts(old(wordCounts), texts)
      ensures var top := TopWords(wordCounts, minFreq, vocabSize);
              word2idx == old(word2idx) + IndexMap(top, 4) && idx2word == old(idx2word) + WordMap(top, 4)
    {
      CountAll(texts);
      var top := Words(Selected(wordCounts, minFreq, vocabSize - 4));
      AssignIds(top);
      vocabBuilt := true;
    }

    /** The counting loop of `fit_on_texts`: `word_counts.update` with each text's tokens. */
    method CountAll(texts: seq<string>)
      requires Valid()
      modifies this
      ensures Valid() && wordCounts == CountTexts(old(wordCounts), texts)
      ensures word2idx == old(word2idx) && idx2word == old(idx2word) && vocabBuilt == old(vocabBuilt)
    {
      var i := 0;
      while i < |texts|
        invariant 0 <= i <= |texts|
        invariant wordCounts == CountTexts(old(wordCounts), texts[..i])
        invariant Valid()
        invariant word2idx == old(word2idx) && idx2word == old(idx2word) && vocabBuilt == old(vocabBuilt)
      {
        AddAllValid(wordCounts, Tokenize(texts[i]));
        wordCounts := AddAll(wordCounts, Tokenize(texts[i]));
        assert texts[..i + 1][..i] == texts[..i];
        i := i + 1;
      }
      assert texts[..i] == texts;
    }

    /** The numbering loop of `fit_on_texts`: the words get ids from 4 in order. */
    method AssignIds(top: seq<string>)
      modifies this
      ensures word2idx == old(word2idx) + IndexMap(top, 4)
      ensures idx2word == old(idx2word) + WordMap(top, 4)
      ensures wordCounts == old(wordCounts) && vocabBuilt == old(vocabBuilt)
    {
      var j := 0;
      while j < |top|
        invariant 0 <= j <= |top|
        invariant word2idx == old(word2idx) + IndexMap(top[..j], 4)
        invariant idx2word == old(idx2word) + WordMap(top[..j], 4)
        invariant wordCounts == old(wordCounts) && vocabBuilt == old(vocabBuilt)
      {
        assert top[..j + 1][..j] == top[..j];
        MapUnionUpdate(old(word2idx), IndexMap(top[..j], 4), top[j], 4 + j);
        MapUnionUpdate(old(idx2word), WordMap(top[..j], 4), 4 + j, top[j]);
        word2idx := word2idx[top[j] := 4 + j];
        idx2word := idx2word[4 + j := top[j]];
        j := j + 1;
      }
      assert top[..j] == top;
    }

    /** The id of a token: its `word2idx` entry, or UNK. */
    function IdOf(w: string): int
      reads this
    {
      if w in word2idx then word2idx[w] else UNK
    }

    /** `text_to_sequence`: one id per token, between START and END when asked. */
    function TextToSequence(text: string, addStartEnd: bool): (r: seq<int>)
      reads this
      ensures var toks := Tokenize(text);
              var off := if addStartEnd then 1 else 0;
              && |r| == |toks| + 2 * off
              && (forall k :: 0 <= k < |toks| ==> r[k + off] == IdOf(toks[k]))
              && (addStartEnd ==> r[0] == START && r[|r| - 1] == END)
    {
      var toks := Tokenize(text);
      var ids := seq(|toks|, k requires 0 <= k < |toks| reads this => IdOf(toks[k]));
      if addStartEnd then [START] + ids + [END] else ids
    }

    /** The word of an id: its `idx2word` entry, or `<UNK>`. */
    function WordOf(i: int): string
      reads this
    {
      if i in idx2word then idx2word[i] else UNK_TOKEN
    }

    /** The words of the ids, one each. */
    function WordsOf(ids: seq<int>): (r: seq<string>)
      reads this
    {
      seq(|ids|, k requires 0 <= k < |ids| reads this => WordOf(ids[k]))
    }

    /** `sequence_to_text`: the words of the ids, without PAD, START and END words, joined by
        single spaces. */
    function SequenceToText(ids: seq<int>): (r: string)
      reads this
    {
      Join(Visible(WordsOf(ids)), " ")
    }

    /** With inverse tables that keep the reserved ids, a token decodes from its id to itself,
        or to `<UNK>` when it has no entry, and START and END decode to their markers. */
    lemma WordOfIdOf(w: string)
      requires Inverse(word2idx, idx2word) && KeepsSpecials(word2idx)
      ensures WordOf(IdOf(w)) == if w in word2idx then w else UNK_TOKEN
      ensures WordOf(START) == START_TOKEN && WordOf(END) == END_TOKEN
    {
      assert idx2word[word2idx[UNK_TOKEN]] == UNK_TOKEN;
      assert idx2word[word2idx[START_TOKEN]] == START_TOKEN;
      assert idx2word[word2idx[END_TOKEN]] == END_TOKEN;
    }

    /** The words of an encoding: the tokens' words, between the START and END markers
        when asked. */
    lemma DecodeIds(toks: seq<string>, ids: seq<int>, addStartEnd: bool)
      requires Inverse(word2idx, idx2word) && KeepsSpecials(word2idx)
      requires var off := if addStartEnd then 1 else 0;
               && |ids| == |toks| + 2 * off
               && (forall k :: 0 <= k < |toks| ==> ids[k + off] == IdOf(toks[k]))
               && (addStartEnd ==> ids[0] == START && ids[|ids| - 1] == END)
      ensures WordsOf(ids) == if addStartEnd then [START_TOKEN] + KnownOrUnk(word2idx, toks) + [END_TOKEN]
                              else KnownOrUnk(word2idx, toks)
    {
      var known := KnownOrUnk(word2idx, toks);
      var words := WordsOf(ids);
      var off := if addStartEnd then 1 else 0;
      forall k | 0 <= k < |toks|
        ensures words[k + off] == known[k]
      {
        WordOfIdOf(toks[k]);
      }
      if addStartEnd {
        WordOfIdOf(UNK_TOKEN);
        var framed := [START_TOKEN] + known + [END_TOKEN];
        forall k | 0 <= k < |words|
          ensures words[k] == framed[k]
        {
          if 0 < k < |words| - 1 {
            assert words[(k - 1) + off] == known[k - 1];
          }
        }
      }
    }

    /** Decoding an encoding gives the tokens joined by spaces, each out-of-vocabulary token
        replaced by `<UNK>`; the START/END markers leave no trace. Holds whenever the tables are
        inverse and keep the reserved ids, as after a fit on a new tokenizer. */
    lemma DecodeEncode(text: string, addStartEnd: bool)
      requires Inverse(word2idx, idx2word) && KeepsSpecials(word2idx)
      ensures SequenceToText(TextToSequence(text, addStartEnd)) == Join(KnownOrUnk(word2idx, Tokenize(text)), " ")
    {
      var toks := Tokenize(text);
      TokensNotSpecial(text);
      var known := KnownOrUnk(word2idx, toks);
      var ids := TextToSequence(text, addStartEnd);
      DecodeIds(toks, ids, addStartEnd);
      UnkVisible(word2idx, known, toks);
      if addStartEnd {
        assert WordsOf(ids) == [START_TOKEN] + known + [END_TOKEN];
        VisibleFramed(known);
      } else {
        assert WordsOf(ids) == known;
      }
    }
  }

  /** The START/END markers around visible words leave no trace. */
  lemma VisibleFramed(known: seq<string>)
    requires Visible(known) == known
    ensures Visible([START_TOKEN] + known + [END_TOKEN]) == known
  {
    VisibleAppend([START_TOKEN], known);
    VisibleAppend([START_TOKEN] + known, [END_TOKEN]);
    assert Visible([START_TOKEN]) == [] && Visible([END_TOKEN]) == [];
  }

  /** Tokens and `<UNK>` are all visible words. */
  lemma UnkVisible(w2i: map<string, int>, known: seq<string>, toks: seq<string>)
    requires forall k :: 0 <= k < |toks| ==> toks[k] !in SPECIAL_IDS
    requires known == KnownOrUnk(w2i, toks)
    ensures Visible(known) == known
  {
    forall k | 0 <= k < |known|
      ensures !Hidden(known[k])
    {
      if known[k] == toks[k] {
        assert toks[k] !in SPECIAL_IDS;
      }
    }
    VisibleOfPlain(known);
  }

  /** The tokens, with every one missing from `w2i` replaced by `<UNK>`. */
  function KnownOrUnk(w2i: map<string, int>, toks: seq<string>): (r: seq<string>)
  {
    seq(|toks|, k requires 0 <= k < |toks| => if toks[k] in w2i then toks[k] else UNK_TOKEN)
  }

  /** Whether a word is one `sequence_to_text` drops. */
  predicate Hidden(w: string) {
    w == PAD_TOKEN || w == START_TOKEN || w == END_TOKEN
  }

  /** The words that are not PAD, START or END words, in order. */
  function Visible(ws: seq<string>): (r: seq<string>)
    ensures forall k :: 0 <= k < |r| ==> !Hidden(r[k]) && r[k] in ws
    ensures |r| <= |ws|
  {
    if |ws| == 0 then [] else (if Hidden(ws[0]) then [] else [ws[0]]) + Visible(ws[1..])
  }

  lemma {:induction false} VisibleAppend(a: seq<string>, b: seq<string>)
    ensures Visible(a + b) == Visible(a) + Visible(b)
  {
    if |a| > 0 {
      VisibleAppend(a[1..], b);
      assert (a + b)[1..] == a[1..] + b;
    } else {
      assert a + b == b;
    }
  }

  lemma {:induction false} VisibleOfPlain(ws: seq<string>)
    requires forall k :: 0 <= k < |ws| ==> !Hidden(ws[k])
    ensures Visible(ws) == ws
  {
    if |ws| > 0 {
      VisibleOfPlain(ws[1..]);
    }
  }
}
