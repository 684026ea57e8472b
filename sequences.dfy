/** The sequence utilities of the training pipeline: padding id sequences into a matrix,
    cutting data into batches, and the n-gram diversity score. */
module Sequences {
  import opened Counting

  // ---------------------------------------------------------------------------------------
  // pad_sequences
  // ---------------------------------------------------------------------------------------

  function Zeros(n: nat): (r: seq<int>)
    ensures |r| == n && forall j :: 0 <= j < n ==> r[j] == 0
  {
    seq(n, _ => 0)
  }

  /** Row `i` of `pad_sequences`. With `padding == 'post'` (`post`) the row is the first
      `maxlen` ids followed by zeros; in any other mode it is zeros followed by the last
      `maxlen` ids. */
  function PadRow(s: seq<int>, maxlen: nat, post: bool): (r: seq<int>)
    ensures |r| == maxlen
    ensures post ==> forall j :: 0 <= j < maxlen ==> r[j] == if j < |s| then s[j] else 0
    ensures !post ==> forall j :: 0 <= j < maxlen ==>
              r[j] == if j >= maxlen - |s| then s[|s| - maxlen + j] else 0
  {
    if |s| > maxlen then (if post then s[..maxlen] else s[|s| - maxlen..])
    else if post then s + Zeros(maxlen - |s|)
    else Zeros(maxlen - |s|) + s
  }

  /** A sequence that fits comes back out of its padded row: at the front with 'post', at the
      back otherwise, with only zeros beside it. One that does not fit keeps its first (or
      last) `maxlen` ids. */
  lemma PadRowRecovers(s: seq<int>, maxlen: nat, post: bool)
    ensures var r := PadRow(s, maxlen, post);
            && (|s| <= maxlen && post ==> r[..|s|] == s && r[|s|..] == Zeros(maxlen - |s|))
            && (|s| <= maxlen && !post ==> r[maxlen - |s|..] == s && r[..maxlen - |s|] == Zeros(maxlen - |s|))
            && (|s| > maxlen && post ==> r == s[..maxlen])
            && (|s| > maxlen && !post ==> r == s[|s| - maxlen..])
  {
    var r := PadRow(s, maxlen, post);
    if |s| <= maxlen && post {
      assert r[..|s|] == s;
      assert r[|s|..] == Zeros(maxlen - |s|);
    } else if |s| <= maxlen {
      assert r[maxlen - |s|..] == s;
      assert r[..maxlen - |s|] == Zeros(maxlen - |s|);
    } else if post {
      assert r == s[..maxlen];
    } else {
      assert r == s[|s| - maxlen..];
    }
  }

  /** `pad_sequences`: a zero matrix of `len(sequences)` rows of `maxlen` ids, each row then
      written from its sequence. In a mode other than 'post', an empty sequence with a positive
      `maxlen`, or one of two or more ids with `maxlen == 0`, makes numpy's slice assignment
      fail; callers must avoid both. A single id with `maxlen == 0` broadcasts into the empty
      row. */
  method PadSequences(seqs: seq<seq<int>>, maxlen: nat, post: bool) returns (padded: array2<int>)
    requires !post ==> forall i :: 0 <= i < |seqs| ==>
               (|seqs[i]| == 0 ==> maxlen == 0) && (maxlen == 0 ==> |seqs[i]| <= 1)
    ensures fresh(padded)
    ensures padded.Length0 == |seqs| && padded.Length1 == maxlen
    ensures forall i, j :: 0 <= i < |seqs| && 0 <= j < maxlen ==> padded[i, j] == PadRow(seqs[i], maxlen, post)[j]
  {
    padded := new int[|seqs|, maxlen]((i, j) => 0);
    var i := 0;
    while i < |seqs|
      invariant 0 <= i <= |seqs|
      invariant forall r, c :: 0 <= r < i && 0 <= c < maxlen ==> padded[r, c] == PadRow(seqs[r], maxlen, post)[c]
      invariant forall r, c :: i <= r < |seqs| && 0 <= c < maxlen ==> padded[r, c] == 0
    {
      WriteRow(padded, i, seqs[i], post);
      i := i + 1;
    }
  }

  /** `padded[i] = ...` / `padded[i, :len(seq)] = seq` / `padded[i, -len(seq):] = seq` on a
      zero row: the row becomes the padded row, and no other row changes. */
  method WriteRow(a: array2<int>, i: nat, s: seq<int>, post: bool)
    requires i < a.Length0
    requires forall c :: 0 <= c < a.Length1 ==> a[i, c] == 0
    modifies a
    ensures forall c :: 0 <= c < a.Length1 ==> a[i, c] == PadRow(s, a.Length1, post)[c]
    ensures forall r, c :: 0 <= r < a.Length0 && r != i && 0 <= c < a.Length1 ==> a[r, c] == old(a[r, c])
  {
    var m := a.Length1;
    if |s| > m {
      var j := 0;
      while j < m
        invariant 0 <= j <= m
        invariant forall c :: 0 <= c < j ==> a[i, c] == PadRow(s, m, post)[c]
        invariant forall r, c :: 0 <= r < a.Length0 && r != i && 0 <= c < m ==> a[r, c] == old(a[r, c])
      {
        a[i, j] := if post then s[j] else s[|s| - m + j];
        j := j + 1;
      }
    } else {
      var off := if post then 0 else m - |s|;
      var j := 0;
      while j < |s|
        invariant 0 <= j <= |s|
        invariant forall c :: 0 <= c < m ==> a[i, c] == if off <= c < off + j then s[c - off] else 0
        invariant forall r, c :: 0 <= r < a.Length0 && r != i && 0 <= c < m ==> a[r, c] == old(a[r, c])
      {
        a[i, off + j] := s[j];
        j := j + 1;
      }
    }
  }

  // ---------------------------------------------------------------------------------------
  // create_batches
  // ---------------------------------------------------------------------------------------

  /** `range(n)` as a list. */
  function Range(n: nat): (r: seq<int>)
  {
    seq(n, i => i)
  }

  /** `np.random.permutation(n)`: some ordering of `0 .. n-1`. */
  predicate IsPermutation(order: seq<int>, n: nat) {
    multiset(order) == multiset(Range(n))
  }

  lemma PermutationBounds(order: seq<int>, n: nat)
    requires IsPermutation(order, n)
    ensures |order| == n
    ensures forall i :: 0 <= i < |order| ==> 0 <= order[i] < n
  {
    assert |multiset(order)| == |multiset(Range(n))|;
    forall i | 0 <= i < |order|
      ensures 0 <= order[i] < n
    {
      assert order[i] in multiset(Range(n));
    }
  }

  /** `data[indices]`. */
  function Permute<T>(data: seq<T>, order: seq<int>): (r: seq<T>)
    requires forall i :: 0 <= i < |order| ==> 0 <= order[i] < |data|
  {
    seq(|order|, i requires 0 <= i < |order| => data[order[i]])
  }

  /** Taking the largest index out of a permutation of `0 .. n-1` leaves a permutation of
      `0 .. n-2`. */
  lemma RemoveLargest(order: seq<int>, n: nat, k: nat)
    requires 0 < n && IsPermutation(order, n) && k < |order| && order[k] == n - 1
    ensures IsPermutation(order[..k] + order[k + 1..], n - 1)
  {
    var rest := order[..k] + order[k + 1..];
    assert order == order[..k] + [order[k]] + order[k + 1..];
    assert Range(n) == Range(n - 1) + [n - 1];
    assert multiset(order) == multiset(rest) + multiset{n - 1};
    assert multiset(Range(n)) == multiset(Range(n - 1)) + multiset{n - 1};
    assert multiset(rest) == multiset(order) - multiset{n - 1};
    assert multiset(Range(n - 1)) == multiset(Range(n)) - multiset{n - 1};
  }

  /** Permuting by `order` with the entry for the last item taken out gives the permutation
      of the other items. */
  lemma PermuteWithout<T>(data: seq<T>, order: seq<int>, k: nat, rest: seq<int>)
    requires |data| > 0 && k < |order| && order[k] == |data| - 1
    requires forall i :: 0 <= i < |order| ==> 0 <= order[i] < |data|
    requires rest == order[..k] + order[k + 1..]
    requires forall i :: 0 <= i < |rest| ==> 0 <= rest[i] < |data| - 1
    ensures multiset(Permute(data, order)) == multiset(Permute(data[..|data| - 1], rest)) + multiset{data[|data| - 1]}
  {
    var p := Permute(data, order);
    var q := Permute(data[..|data| - 1], rest);
    assert p == p[..k] + [p[k]] + p[k + 1..];
    assert q == p[..k] + p[k + 1..];
  }

  /** Indexing by a permutation rearranges the data without adding or losing an item. */
  lemma {:induction false} PermutePreserves<T>(data: seq<T>, order: seq<int>)
    requires IsPermutation(order, |data|)
    ensures |order| == |data|
    ensures forall i :: 0 <= i < |order| ==> 0 <= order[i] < |data|
    ensures multiset(Permute(data, order)) == multiset(data)
  {
    var n := |data|;
    PermutationBounds(order, n);
    if n > 0 {
      assert n - 1 in multiset(order) by {
        assert Range(n)[n - 1] == n - 1;
      }
      var k :| 0 <= k < |order| && order[k] == n - 1;
      var rest := order[..k] + order[k + 1..];
      RemoveLargest(order, n, k);
      PermutationBounds(rest, n - 1);
      PermutePreserves(data[..n - 1], rest);
      PermuteWithout(data, order, k, rest);
      assert multiset(data) == multiset(data[..n - 1]) + multiset{data[n - 1]} by {
        assert data == data[..n - 1] + [data[n - 1]];
      }
    }
  }

  /** The concatenation of a list of batches. */
  function Flatten<T>(batches: seq<seq<T>>): seq<T> {
    if batches == [] then [] else Flatten(batches[..|batches| - 1]) + batches[|batches| - 1]
  }

  /** `len(data) // batch_size` full batches, plus one for a remainder. */
  function NumBatches(n: nat, batchSize: nat): nat
    requires batchSize >= 1
  {
    n / batchSize + (if n % batchSize != 0 then 1 else 0)
  }

  lemma NumBatchesIsCeiling(n: nat, batchSize: nat)
    requires batchSize >= 1
    ensures (NumBatches(n, batchSize) - 1) * batchSize < n <= NumBatches(n, batchSize) * batchSize || n == 0
    ensures n == 0 <==> NumBatches(n, batchSize) == 0
  {
    var q, m := n / batchSize, n % batchSize;
    assert n == q * batchSize + m;
    if m != 0 {
      assert NumBatches(n, batchSize) * batchSize == q * batchSize + batchSize;
    } else if n != 0 {
      assert q >= 1;
      assert (q - 1) * batchSize == q * batchSize - batchSize;
    }
  }

  lemma FullBatchFits(i: nat, n: nat, batchSize: nat)
    requires batchSize >= 1 && i < n / batchSize
    ensures i * batchSize + batchSize <= n
    ensures (i + 1) * batchSize == i * batchSize + batchSize
  {
    assert i + 1 <= n / batchSize;
    assert (i + 1) * batchSize <= (n / batchSize) * batchSize;
  }

  /** The full batches end at `(n / batchSize) * batchSize`, and the remainder follows. */
  lemma RemainderBatch(n: nat, batchSize: nat)
    requires batchSize >= 1
    ensures (n / batchSize) * batchSize <= n
    ensures n - (n / batchSize) * batchSize == n % batchSize
  {
  }

  /** `create_batches`. With `shuffle`, `order` is the permutation numpy draws. The batches
      are full except possibly the last, which holds the remainder, and together they are the
      (shuffled) data in order. */
  method CreateBatches<T>(data: seq<T>, batchSize: nat, shuffle: bool, order: seq<int>) returns (batches: seq<seq<T>>)
    requires batchSize >= 1
    requires shuffle ==> IsPermutation(order, |data|)
    ensures |batches| == NumBatches(|data|, batchSize)
    ensures forall b :: 0 <= b < |batches| - 1 ==> |batches[b]| == batchSize
    ensures |batches| > 0 ==> |batches[|batches| - 1]| == if |data| % batchSize == 0 then batchSize else |data| % batchSize
    ensures !shuffle ==> Flatten(batches) == data
    ensures shuffle ==> (forall i :: 0 <= i < |order| ==> 0 <= order[i] < |data|) && Flatten(batches) == Permute(data, order)
    ensures multiset(Flatten(batches)) == multiset(data)
  {
    var d := data;
    if shuffle {
      PermutePreserves(data, order);
      d := Permute(data, order);
    }
    batches := Split(d, batchSize);
  }

  /** The batching loop of `create_batches`: `len(d) // batch_size` full slices, then the rest. */
  method Split<T>(d: seq<T>, batchSize: nat) returns (batches: seq<seq<T>>)
    requires batchSize >= 1
    ensures |batches| == NumBatches(|d|, batchSize)
    ensures forall b :: 0 <= b < |batches| - 1 ==> |batches[b]| == batchSize
    ensures |batches| > 0 ==> |batches[|batches| - 1]| == if |d| % batchSize == 0 then batchSize else |d| % batchSize
    ensures Flatten(batches) == d
  {
    var n := |d|;
    var num := n / batchSize;
    batches := [];
    var i, lo := 0, 0;
    while i < num
      invariant 0 <= i <= num
      invariant lo == i * batchSize && lo <= n
      invariant |batches| == i
      invariant forall b :: 0 <= b < i ==> |batches[b]| == batchSize
      invariant Flatten(batches) == d[..lo]
    {
      FullBatchFits(i, n, batchSize);
      var batch := d[lo..lo + batchSize];
      AppendBatch(batches, batch, d, lo, lo + batchSize);
      batches := batches + [batch];
      i, lo := i + 1, lo + batchSize;
    }
    RemainderBatch(n, batchSize);
    if n % batchSize != 0 {
      var batch := d[lo..];
      AppendBatch(batches, batch, d, lo, n);
      batches := batches + [batch];
    } else {
      assert d[..lo] == d;
    }
  }

  lemma AppendBatch<T>(batches: seq<seq<T>>, batch: seq<T>, d: seq<T>, lo: nat, hi: nat)
    requires lo <= hi <= |d| && Flatten(batches) == d[..lo] && batch == d[lo..hi]
    ensures Flatten(batches + [batch]) == d[..hi]
  {
    assert (batches + [batch])[..|batches|] == batches;
    assert d[..hi] == d[..lo] + d[lo..hi];
  }

  // ---------------------------------------------------------------------------------------
  // calculate_diversity
  // ---------------------------------------------------------------------------------------

  /** A Python slice bound: negative counts from the end, then clamped to `[0, len]`. */
  function SliceBound(k: int, len: nat): (b: nat)
    ensures b <= len
  {
    if k < 0 then (if k + len < 0 then 0 else k + len) else if k > len then len else k
  }

  /** Python's `s[i:j]`. */
  function PySlice(s: seq<int>, i: int, j: int): seq<int> {
    var a, b := SliceBound(i, |s|), SliceBound(j, |s|);
    if a < b then s[a..b] else []
  }

  /** The n-grams `tuple(seq[i:i + n])` for `i in range(len(seq) - n + 1)`. */
  function NGrams(s: seq<int>, n: int): (r: seq<seq<int>>)
    ensures |r| == if |s| - n + 1 > 0 then |s| - n + 1 else 0
  {
    var count := if |s| - n + 1 > 0 then |s| - n + 1 else 0;
    seq(count, i requires 0 <= i < count => PySlice(s, i, i + n))
  }

  /** All n-grams of all sequences, in order. */
  function AllNGrams(seqs: seq<seq<int>>, n: int): seq<seq<int>> {
    if seqs == [] then [] else AllNGrams(seqs[..|seqs| - 1], n) + NGrams(seqs[|seqs| - 1], n)
  }

  /** For a positive `n` the n-grams are the length-`n` windows of the sequence. */
  lemma NGramsAreWindows(s: seq<int>, n: int)
    requires n >= 1
    ensures forall i :: 0 <= i < |NGrams(s, n)| ==> NGrams(s, n)[i] == s[i..i + n]
  {
    forall i | 0 <= i < |NGrams(s, n)|
      ensures NGrams(s, n)[i] == s[i..i + n]
    {
      assert SliceBound(i, |s|) == i && SliceBound(i + n, |s|) == i + n;
    }
  }

  /** There are no n-grams exactly when every sequence is shorter than `n`. */
  lemma {:induction false} NoNGrams(seqs: seq<seq<int>>, n: int)
    ensures |AllNGrams(seqs, n)| == 0 <==> forall i :: 0 <= i < |seqs| ==> |seqs[i]| < n
  {
    if seqs != [] {
      NoNGrams(seqs[..|seqs| - 1], n);
      assert forall i :: 0 <= i < |seqs| - 1 ==> seqs[..|seqs| - 1][i] == seqs[i];
    }
  }

  function Elems<T>(s: seq<T>): set<T> {
    set x | x in s
  }

  /** A list has at most as many distinct items as entries, at least one when it is not
      empty, and exactly as many when its entries are distinct. */
  lemma {:induction false} ElemsCard<T>(s: seq<T>)
    ensures |Elems(s)| <= |s|
    ensures |s| > 0 ==> |Elems(s)| >= 1
    ensures Distinct(s) <==> |Elems(s)| == |s|
  {
    if |s| > 0 {
      var init, x := s[..|s| - 1], s[|s| - 1];
      ElemsCard(init);
      assert s == init + [x];
      assert Elems(s) == Elems(init) + {x};
      if x in init {
        assert Elems(s) == Elems(init);
        var k :| 0 <= k < |init| && init[k] == x;
        assert s[k] == s[|s| - 1];
      } else {
        assert x !in Elems(init);
        if Distinct(init) {
          forall i, j | 0 <= i < j < |s|
            ensures s[i] != s[j]
          {
            if j < |s| - 1 {
              assert s[i] == init[i] && s[j] == init[j];
            } else {
              assert s[i] in init;
            }
          }
        } else {
          var i, j :| 0 <= i < j < |init| && init[i] == init[j];
          assert s[i] == s[j];
        }
      }
    } else {
      assert Elems(s) == {};
    }
  }

  /** `len(set(grams)) / len(grams)`, or 0 for no grams. */
  function Ratio(grams: seq<seq<int>>): (d: real) {
    if |grams| == 0 then 0.0 else |Elems(grams)| as real / |grams| as real
  }

  /** The score is 0 exactly when there are no n-grams, lies in `(0, 1]` otherwise, and is 1
      exactly when no n-gram repeats. */
  lemma RatioBounds(grams: seq<seq<int>>)
    ensures Ratio(grams) == 0.0 <==> |grams| == 0
    ensures |grams| > 0 ==> 0.0 < Ratio(grams) <= 1.0
    ensures |grams| > 0 ==> (Ratio(grams) == 1.0 <==> Distinct(grams))
  {
    ElemsCard(grams);
    if |grams| > 0 {
      ShareBounds(|Elems(grams)| as real, |grams| as real);
    }
  }

  /** A share `u / t` of a positive whole `t`, with `0 < u <= t`, lies in `(0, 1]` and is 1
      exactly when `u == t`. */
  lemma ShareBounds(u: real, t: real)
    requires 0.0 < u <= t
    ensures 0.0 < u / t <= 1.0
    ensures u / t == 1.0 <==> u == t
  {
  }

  /** `calculate_diversity`: every n-gram of every sequence is collected in a loop, then the
      share of distinct ones is returned. */
  method CalculateDiversity(seqs: seq<seq<int>>, n: int) returns (d: real)
    ensures d == Ratio(AllNGrams(seqs, n))
    ensures d == 0.0 <==> forall i :: 0 <= i < |seqs| ==> |seqs[i]| < n
    ensures 0.0 <= d <= 1.0
  {
    var all: seq<seq<int>> := [];
    var k := 0;
    while k < |seqs|
      invariant 0 <= k <= |seqs|
      invariant all == AllNGrams(seqs[..k], n)
    {
      var s := seqs[k];
      var i := 0;
      while i < |s| - n + 1
        invariant 0 <= i && (i <= |s| - n + 1 || i == 0)
        invariant all == AllNGrams(seqs[..k], n) + NGrams(s, n)[..i]
      {
        all := all + [PySlice(s, i, i + n)];
        i := i + 1;
      }
      assert NGrams(s, n)[..i] == NGrams(s, n);
      assert seqs[..k + 1][..k] == seqs[..k];
      k := k + 1;
    }
    assert seqs[..k] == seqs;
    RatioBounds(all);
    NoNGrams(seqs, n);
    if |all| == 0 {
      d := 0.0;
    } else {
      d := |Elems(all)| as real / |all| as real;
    }
  }
}
