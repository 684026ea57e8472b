/** Word counting as both vocabulary builders do it: a dictionary that remembers the order in
    which words were first seen, then a stable sort by descending count, then a prefix. */
module Counting {

  /** A `Counter` / insertion-ordered `dict` from words to counts: `keys` lists the words in
      first-seen order. */
  datatype Counter = Counter(keys: seq<string>, counts: map<string, nat>)

  predicate Distinct<T(==)>(s: seq<T>) {
    forall i, j :: 0 <= i < j < |s| ==> s[i] != s[j]
  }

  /** Every key is counted, every counted word is a key, keys are distinct and counts
      positive. */
  ghost predicate Valid(c: Counter) {
    Distinct(c.keys) &&
    (forall w :: w in c.counts <==> w in c.keys) &&
    (forall w :: w in c.counts ==> c.counts[w] >= 1)
  }

  const Empty: Counter := Counter([], map[])

  /** `d.get(w, 0)`. */
  function Get(c: Counter, w: string): nat {
    if w in c.counts then c.counts[w] else 0
  }

  /** `d[w] = d.get(w, 0) + 1`: a new word is appended to the key order. */
  function Add(c: Counter, w: string): (r: Counter)
    ensures Get(r, w) == Get(c, w) + 1
    ensures forall v :: v != w ==> Get(r, v) == Get(c, v)
  {
    if w in c.counts then Counter(c.keys, c.counts[w := c.counts[w] + 1])
    else Counter(c.keys + [w], c.counts[w := 1])
  }

  /** Counting every word of `ws`, in order. */
  function AddAll(c: Counter, ws: seq<string>): Counter {
    if |ws| == 0 then c else Add(AddAll(c, ws[..|ws| - 1]), ws[|ws| - 1])
  }

  lemma AddValid(c: Counter, w: string)
    requires Valid(c)
    ensures Valid(Add(c, w))
    ensures w in Add(c, w).keys
    ensures Add(c, w).keys == c.keys || Add(c, w).keys == c.keys + [w]
  {
  }

  /** Counting keeps the counter well formed, keeps the old key order as a prefix, and adds
      every counted word as a key. */
  lemma {:induction false} AddAllValid(c: Counter, ws: seq<string>)
    requires Valid(c)
    ensures Valid(AddAll(c, ws))
    ensures c.keys <= AddAll(c, ws).keys
    ensures forall k :: 0 <= k < |ws| ==> ws[k] in AddAll(c, ws).keys
  {
    if |ws| > 0 {
      var init := ws[..|ws| - 1];
      AddAllValid(c, init);
      AddValid(AddAll(c, init), ws[|ws| - 1]);
      forall k | 0 <= k < |ws|
        ensures ws[k] in AddAll(c, ws).keys
      {
        if k < |ws| - 1 {
          assert ws[k] == init[k];
        }
      }
    }
  }

  /** Counting adds no key that is not among the counted words. */
  lemma {:induction false} AddAllKeys(c: Counter, ws: seq<string>)
    ensures forall w :: w in AddAll(c, ws).keys ==> w in c.keys || w in ws
  {
    if |ws| > 0 {
      AddAllKeys(c, ws[..|ws| - 1]);
      assert forall w :: w in ws[..|ws| - 1] ==> w in ws;
    }
  }

  /** After counting, each word's count has grown by its number of occurrences. */
  lemma {:induction false} AddAllCounts(c: Counter, ws: seq<string>, w: string)
    ensures Get(AddAll(c, ws), w) == Get(c, w) + multiset(ws)[w]
  {
    if |ws| > 0 {
      var init := ws[..|ws| - 1];
      AddAllCounts(c, init, w);
      assert ws == init + [ws[|ws| - 1]];
      assert multiset(ws) == multiset(init) + multiset{ws[|ws| - 1]};
    }
  }

  // ---------------------------------------------------------------------------------------
  // Ranking
  // ---------------------------------------------------------------------------------------

  /** Counts never increase along the sequence. */
  predicate NonIncreasing(s: seq<(string, nat)>) {
    forall i, j :: 0 <= i < j < |s| ==> s[i].1 >= s[j].1
  }

  /** The (word, count) items of `c` whose count is at least `minFreq`, in key order. */
  function Frequent(c: Counter, minFreq: int): (r: seq<(string, nat)>)
    requires Valid(c)
    ensures forall k :: 0 <= k < |r| ==> r[k].0 in c.counts && r[k].1 == c.counts[r[k].0] && r[k].1 >= minFreq
  {
    FrequentOf(c.keys, c, minFreq)
  }

  function FrequentOf(keys: seq<string>, c: Counter, minFreq: int): (r: seq<(string, nat)>)
    requires forall k :: 0 <= k < |keys| ==> keys[k] in c.counts
    ensures forall k :: 0 <= k < |r| ==> r[k].0 in c.counts && r[k].1 == c.counts[r[k].0] && r[k].1 >= minFreq
    ensures forall k :: 0 <= k < |r| ==> r[k].0 in keys
    ensures forall k :: 0 <= k < |keys| && c.counts[keys[k]] >= minFreq ==> (keys[k], c.counts[keys[k]]) in r
  {
    if |keys| == 0 then []
    else
      var rest := FrequentOf(keys[1..], c, minFreq);
      if c.counts[keys[0]] >= minFreq then [(keys[0], c.counts[keys[0]])] + rest else rest
  }

  /** Distinct keys give distinct words. */
  lemma {:induction false} FrequentOfDistinct(keys: seq<string>, c: Counter, minFreq: int)
    requires forall k :: 0 <= k < |keys| ==> keys[k] in c.counts
    requires Distinct(keys)
    ensures Distinct(Words(FrequentOf(keys, c, minFreq)))
  {
    if |keys| > 0 {
      FrequentOfDistinct(keys[1..], c, minFreq);
      var rest := FrequentOf(keys[1..], c, minFreq);
      assert forall k :: 0 <= k < |rest| ==> rest[k].0 != keys[0];
    }
  }

  /** The words of a list of items. */
  function Words(s: seq<(string, nat)>): (r: seq<string>)
    ensures |r| == |s| && forall k :: 0 <= k < |s| ==> r[k] == s[k].0
  {
    seq(|s|, k requires 0 <= k < |s| => s[k].0)
  }

  /** Insertion of one item into a ranking: after every item counted at least as often, so
      that equal counts keep their order of arrival. */
  function Insert(p: (string, nat), s: seq<(string, nat)>): (r: seq<(string, nat)>)
    ensures multiset(r) == multiset(s) + multiset{p}
  {
    if |s| == 0 then [p]
    else if s[0].1 >= p.1 then
      assert s == [s[0]] + s[1..];
      [s[0]] + Insert(p, s[1..])
    else [p] + s
  }

  /** `sorted(items, key=count, reverse=True)`, which is stable. */
  function RankByCount(s: seq<(string, nat)>): (r: seq<(string, nat)>)
    ensures multiset(r) == multiset(s)
  {
    if |s| == 0 then []
    else
      assert s == s[..|s| - 1] + [s[|s| - 1]];
      Insert(s[|s| - 1], RankByCount(s[..|s| - 1]))
  }

  lemma {:induction false} InsertSorted(p: (string, nat), s: seq<(string, nat)>)
    requires NonIncreasing(s)
    ensures NonIncreasing(Insert(p, s))
  {
    if |s| > 0 && s[0].1 >= p.1 {
      InsertSorted(p, s[1..]);
      InsertBounded(p, s[1..], s[0].1);
      var t := Insert(p, s[1..]);
      assert Insert(p, s) == [s[0]] + t;
    }
  }

  /** No count above `b` is inserted into a ranking without one. */
  lemma {:induction false} InsertBounded(p: (string, nat), s: seq<(string, nat)>, b: nat)
    requires p.1 <= b && forall k :: 0 <= k < |s| ==> s[k].1 <= b
    ensures forall k :: 0 <= k < |Insert(p, s)| ==> Insert(p, s)[k].1 <= b
  {
    if |s| > 0 && s[0].1 >= p.1 {
      InsertBounded(p, s[1..], b);
      assert Insert(p, s) == [s[0]] + Insert(p, s[1..]);
    }
  }

  /** The ranking is in non-increasing count order. */
  lemma {:induction false} RankSorted(s: seq<(string, nat)>)
    ensures NonIncreasing(RankByCount(s))
  {
    if |s| > 0 {
      RankSorted(s[..|s| - 1]);
      InsertSorted(s[|s| - 1], RankByCount(s[..|s| - 1]));
    }
  }

  /** The items of `s` counted exactly `v` times, in their order in `s`. */
  function WithCount(s: seq<(string, nat)>, v: nat): seq<(string, nat)> {
    if s == [] then [] else (if s[0].1 == v then [s[0]] else []) + WithCount(s[1..], v)
  }

  lemma {:induction false} WithCountAppend(a: seq<(string, nat)>, b: seq<(string, nat)>, v: nat)
    ensures WithCount(a + b, v) == WithCount(a, v) + WithCount(b, v)
  {
    if a == [] {
      assert a + b == b;
    } else {
      var h := if a[0].1 == v then [a[0]] else [];
      assert (a + b)[0] == a[0] && (a + b)[1..] == a[1..] + b;
      assert WithCount(a + b, v) == h + WithCount(a[1..] + b, v);
      WithCountAppend(a[1..], b, v);
      assert WithCount(a, v) == h + WithCount(a[1..], v);
    }
  }

  lemma {:induction false} WithCountNone(s: seq<(string, nat)>, v: nat)
    requires forall k :: 0 <= k < |s| ==> s[k].1 != v
    ensures WithCount(s, v) == []
  {
    if s != [] {
      WithCountNone(s[1..], v);
    }
  }

  /** Inserting into a ranking puts the item after every item with the same count. */
  lemma {:induction false} InsertWithCount(p: (string, nat), s: seq<(string, nat)>, v: nat)
    requires NonIncreasing(s)
    ensures WithCount(Insert(p, s), v) == WithCount(s, v) + WithCount([p], v)
  {
    if s == [] {
      assert Insert(p, s) == [p];
    } else if s[0].1 >= p.1 {
      InsertWithCount(p, s[1..], v);
      InsertPastHead(p, s, v);
    } else {
      InsertAtHead(p, s, v);
    }
  }

  /** An item counted at least as often as the inserted one stays in front of it. */
  lemma InsertPastHead(p: (string, nat), s: seq<(string, nat)>, v: nat)
    requires s != [] && s[0].1 >= p.1
    requires WithCount(Insert(p, s[1..]), v) == WithCount(s[1..], v) + WithCount([p], v)
    ensures WithCount(Insert(p, s), v) == WithCount(s, v) + WithCount([p], v)
  {
    assert s == [s[0]] + s[1..];
    WithCountAppend([s[0]], s[1..], v);
    WithCountCons(s[0], Insert(p, s[1..]), WithCount(s[1..], v), WithCount([p], v), v);
  }

  lemma WithCountCons(x: (string, nat), t: seq<(string, nat)>, a: seq<(string, nat)>, b: seq<(string, nat)>, v: nat)
    requires WithCount(t, v) == a + b
    ensures WithCount([x] + t, v) == (WithCount([x], v) + a) + b
  {
    WithCountAppend([x], t, v);
    assert WithCount([x], v) + (a + b) == (WithCount([x], v) + a) + b;
  }

  /** An item counted more often than a whole ranking goes in front, after no equal count. */
  lemma InsertAtHead(p: (string, nat), s: seq<(string, nat)>, v: nat)
    requires NonIncreasing(s) && s != [] && s[0].1 < p.1
    ensures WithCount(Insert(p, s), v) == WithCount(s, v) + WithCount([p], v)
  {
    assert Insert(p, s) == [p] + s;
    WithCountAppend([p], s, v);
    if p.1 == v {
      forall k | 0 <= k < |s|
        ensures s[k].1 != v
      {
        assert k == 0 || s[0].1 >= s[k].1;
      }
      WithCountNone(s, v);
      assert WithCount([p], v) + [] == [] + WithCount([p], v);
    } else {
      assert [p][1..] == [];
      assert WithCount([p], v) == [];
    }
  }

  /** The ranking is stable: the items with any one count appear in it in their input order. */
  lemma {:induction false} RankStable(s: seq<(string, nat)>, v: nat)
    ensures WithCount(RankByCount(s), v) == WithCount(s, v)
  {
    if s != [] {
      var q, x := s[..|s| - 1], s[|s| - 1];
      assert RankByCount(s) == Insert(x, RankByCount(q));
      RankStable(q, v);
      RankSorted(q);
      InsertWithCount(x, RankByCount(q), v);
      assert s == q + [x];
      WithCountAppend(q, [x], v);
    }
  }

  /** A permutation of a sequence without repetitions has none either. */
  lemma PermutationDistinct<T>(s: seq<T>, t: seq<T>)
    requires multiset(s) == multiset(t) && Distinct(s)
    ensures Distinct(t)
  {
    forall i, j | 0 <= i < j < |t|
      ensures t[i] != t[j]
    {
      if t[i] == t[j] {
        assert multiset(t)[t[i]] >= 2 by {
          var rest := t[..i] + t[i + 1..];
          assert t == t[..i] + [t[i]] + t[i + 1..];
          assert t[j] == rest[j - 1];
          assert multiset(t) == multiset(rest) + multiset{t[i]};
        }
        DistinctAtMostOnce(s, t[i]);
      }
    }
  }

  lemma {:induction false} DistinctAtMostOnce<T>(s: seq<T>, x: T)
    requires Distinct(s)
    ensures multiset(s)[x] <= 1
  {
    if |s| > 0 {
      DistinctAtMostOnce(s[1..], x);
      assert s == [s[0]] + s[1..];
      if s[0] == x {
        assert x !in s[1..];
      }
    }
  }

  /** The words of a ranking are distinct when those of the ranked items are. */
  lemma RankDistinct(s: seq<(string, nat)>)
    requires Distinct(Words(s))
    ensures Distinct(Words(RankByCount(s)))
  {
    var r := RankByCount(s);
    PermutationDistinct(s, r) by {
      assert Distinct(s) by {
        forall i, j | 0 <= i < j < |s| ensures s[i] != s[j] {
          assert Words(s)[i] != Words(s)[j];
        }
      }
    }
    forall i, j | 0 <= i < j < |r|
      ensures Words(r)[i] != Words(r)[j]
    {
      assert r[i] in multiset(s) && r[j] in multiset(s);
      var a :| 0 <= a < |s| && s[a] == r[i];
      var b :| 0 <= b < |s| && s[b] == r[j];
      if a != b {
        assert Words(s)[a] != Words(s)[b];
      }
    }
  }

  /** `items[:n]`, for a non-negative `n`. */
  function Top(s: seq<(string, nat)>, n: nat): (r: seq<(string, nat)>)
    ensures r <= s && |r| == if n < |s| then n else |s|
  {
    if n < |s| then s[..n] else s
  }

  /** The words a vocabulary keeps: those counted at least `minFreq` times, most frequent
      first (ties in first-seen order), at most `n` of them. */
  function Selected(c: Counter, minFreq: int, n: nat): seq<(string, nat)>
    requires Valid(c)
  {
    Top(RankByCount(Frequent(c, minFreq)), n)
  }

  /** The selection: at most `n` distinct counted words, each counted at least `minFreq`
      times with its count, sorted by non-increasing count; and no frequent enough word is
      left out while there is room. */
  lemma SelectedProperties(c: Counter, minFreq: int, n: nat)
    requires Valid(c)
    ensures var s := Selected(c, minFreq, n);
            && |s| <= n
            && NonIncreasing(s)
            && Distinct(Words(s))
            && (forall k :: 0 <= k < |s| ==> s[k].0 in c.counts && s[k].1 == c.counts[s[k].0] && s[k].1 >= minFreq)
            && (|s| < n ==> forall w :: w in c.counts && c.counts[w] >= minFreq ==> (w, c.counts[w]) in s)
            && (forall w, k :: w in c.counts && c.counts[w] >= minFreq && (w, c.counts[w]) !in s && 0 <= k < |s| ==>
                  c.counts[w] <= s[k].1)
  {
    SelectedShape(c, minFreq, n);
    SelectedItems(c, minFreq, n);
    SelectedTop(c, minFreq, n);
  }

  /** The selection is the top of the ranking: a frequent enough word that is left out is
      counted no more often than any selected word. */
  lemma SelectedTop(c: Counter, minFreq: int, n: nat)
    requires Valid(c)
    ensures var s := Selected(c, minFreq, n);
            forall w, k :: w in c.counts && c.counts[w] >= minFreq && (w, c.counts[w]) !in s && 0 <= k < |s| ==>
              c.counts[w] <= s[k].1
  {
    var r := RankByCount(Frequent(c, minFreq));
    var s := Selected(c, minFreq, n);
    RankedItems(c, minFreq);
    RankSorted(Frequent(c, minFreq));
    forall w, k | w in c.counts && c.counts[w] >= minFreq && (w, c.counts[w]) !in s && 0 <= k < |s|
      ensures c.counts[w] <= s[k].1
    {
      PrefixOfSorted(r, |s|, (w, c.counts[w]));
      assert s[k] == r[k];
    }
  }

  /** An item of a sorted list outside a prefix is counted no more often than the prefix's
      items. */
  lemma PrefixOfSorted(r: seq<(string, nat)>, m: nat, x: (string, nat))
    requires NonIncreasing(r) && m <= |r| && x in r && x !in r[..m]
    ensures forall k :: 0 <= k < m ==> x.1 <= r[k].1
  {
    var j :| 0 <= j < |r| && r[j] == x;
    forall i | 0 <= i < m
      ensures r[i] in r[..m]
    {
      assert r[..m][i] == r[i];
    }
    assert j >= m;
  }

  /** At most `n` distinct words, in non-increasing count order. */
  lemma SelectedShape(c: Counter, minFreq: int, n: nat)
    requires Valid(c)
    ensures var s := Selected(c, minFreq, n);
            |s| <= n && NonIncreasing(s) && Distinct(Words(s))
  {
    var f := Frequent(c, minFreq);
    var r := RankByCount(f);
    RankSorted(f);
    FrequentOfDistinct(c.keys, c, minFreq);
    RankDistinct(f);
    TopDistinct(r, n);
  }

  /** Each selected word comes with its count, at least `minFreq`, and while there is room
      every word counted that often is selected. */
  lemma SelectedItems(c: Counter, minFreq: int, n: nat)
    requires Valid(c)
    ensures var s := Selected(c, minFreq, n);
            && (forall k :: 0 <= k < |s| ==> s[k].0 in c.counts && s[k].1 == c.counts[s[k].0] && s[k].1 >= minFreq)
            && (|s| < n ==> forall w :: w in c.counts && c.counts[w] >= minFreq ==> (w, c.counts[w]) in s)
  {
    var r := RankByCount(Frequent(c, minFreq));
    RankedItems(c, minFreq);
    if |Top(r, n)| < n {
      assert Top(r, n) == r;
    }
  }

  /** The ranked items are the counted words with their counts, each counted at least
      `minFreq` times, and every such word is among them. */
  lemma RankedItems(c: Counter, minFreq: int)
    requires Valid(c)
    ensures var r := RankByCount(Frequent(c, minFreq));
            && (forall k :: 0 <= k < |r| ==> r[k].0 in c.counts && r[k].1 == c.counts[r[k].0] && r[k].1 >= minFreq)
            && (forall w :: w in c.counts && c.counts[w] >= minFreq ==> (w, c.counts[w]) in r)
  {
    var f := Frequent(c, minFreq);
    var r := RankByCount(f);
    forall k | 0 <= k < |r|
      ensures r[k].0 in c.counts && r[k].1 == c.counts[r[k].0] && r[k].1 >= minFreq
    {
      assert r[k] in multiset(f);
    }
    forall w | w in c.counts && c.counts[w] >= minFreq
      ensures (w, c.counts[w]) in r
    {
      var k :| 0 <= k < |c.keys| && c.keys[k] == w;
      assert (w, c.counts[w]) in multiset(r);
    }
  }

  /** Among words with the same count, the selection keeps the first ones in key order, which
      is the order of first occurrence. */
  lemma SelectedTies(c: Counter, minFreq: int, n: nat, v: nat)
    requires Valid(c)
    ensures WithCount(Selected(c, minFreq, n), v) <= WithCount(Frequent(c, minFreq), v)
  {
    var f := Frequent(c, minFreq);
    RankStable(f, v);
    WithCountPrefix(Selected(c, minFreq, n), RankByCount(f), v);
  }

  lemma WithCountPrefix(t: seq<(string, nat)>, r: seq<(string, nat)>, v: nat)
    requires t <= r
    ensures WithCount(t, v) <= WithCount(r, v)
  {
    assert r == t + r[|t|..];
    WithCountAppend(t, r[|t|..], v);
  }

  /** A prefix keeps the words distinct. */
  lemma TopDistinct(r: seq<(string, nat)>, n: nat)
    requires Distinct(Words(r))
    ensures Distinct(Words(Top(r, n)))
  {
    var s := Top(r, n);
    forall i, j | 0 <= i < j < |s| ensures Words(s)[i] != Words(s)[j] {
      assert Words(r)[i] != Words(r)[j];
    }
  }
}
