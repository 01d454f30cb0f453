/** Overlapping fixed-size windows over the tokens of a page body. */
module Chunking {


  function Stride(words: nat, overlap: nat): nat {
    if words - overlap > 1 then words - overlap else 1
  }

  /** Where window i begins: the i-th element of the stepped range. */
  function Start(i: nat, stride: nat): nat {
    if i == 0 then 0 else Start(i - 1, stride) + stride
  }

  lemma NextStart(i: nat, stride: nat)
    ensures Start(0, stride) == 0 && Start(i + 1, stride) == Start(i, stride) + stride
  {
  }

  function Window<T>(tokens: seq<T>, start: nat, words: nat): seq<T>
    requires start <= |tokens|
  {
    if start + words <= |tokens| then tokens[start..start + words] else tokens[start..]
  }

  ghost predicate AreWindows<T>(tokens: seq<T>, words: nat, stride: nat, chunks: seq<seq<T>>) {
    forall i :: 0 <= i < |chunks| ==>
      Start(i, stride) <= |tokens| && chunks[i] == Window(tokens, Start(i, stride), words)
  }

  /** No window before the n-th reaches the end of the text. */
  ghost predicate StopShort(length: nat, words: nat, stride: nat, n: int) {
    forall i :: 0 <= i < n ==> Start(i, stride) + words < length
  }

  /** The chunks are the stepped windows up to the first one that reaches the end of the text. */
  ghost predicate IsChunking<T>(tokens: seq<T>, words: nat, overlap: nat, chunks: seq<seq<T>>) {
    var stride := Stride(words, overlap);
    if |tokens| <= words then chunks == if tokens == [] then [] else [tokens]
    else if words == 0 then chunks == []
    else
      && chunks != []
      && AreWindows(tokens, words, stride, chunks)
      && StopShort(|tokens|, words, stride, |chunks| - 1)
      && Start(|chunks| - 1, stride) + words >= |tokens|
  }

  method ChunkText<T>(tokens: seq<T>, words: nat, overlap: nat) returns (chunks: seq<seq<T>>)
    ensures IsChunking(tokens, words, overlap, chunks)
  {
    hide Start, AreWindows, StopShort, Window;
    if tokens == [] {
      return [];
    }
    if |tokens| <= words {
      return [tokens];
    }
    var stride := if words - overlap > 1 then words - overlap else 1;
    chunks := [];
    var start := 0;
    NoWindows(tokens, words, stride);
    while start < |tokens|
      invariant start == Start(|chunks|, stride)
      invariant words > 0 ==> start < |tokens|
      invariant words == 0 ==> chunks == []
      invariant AreWindows(tokens, words, stride, chunks) && StopShort(|tokens|, words, stride, |chunks|)
      decreases |tokens| - start
    {
      var piece := Window(tokens, start, words);
      MoreWindows(tokens, words, stride, chunks);
      if piece == [] {
        break;
      }
      chunks := chunks + [piece];
      if start + words >= |tokens| {
        break;
      }
      start := start + stride;
    }
  }

  lemma NoWindows<T>(tokens: seq<T>, words: nat, stride: nat)
    ensures Start(0, stride) == 0 && AreWindows(tokens, words, stride, []) && StopShort(|tokens|, words, stride, 0)
  {
  }

  lemma MoreWindows<T>(tokens: seq<T>, words: nat, stride: nat, chunks: seq<seq<T>>)
    requires AreWindows(tokens, words, stride, chunks) && StopShort(|tokens|, words, stride, |chunks|)
    requires Start(|chunks|, stride) < |tokens|
    ensures var w := Window(tokens, Start(|chunks|, stride), words);
            && (w == [] <==> words == 0)
            && AreWindows(tokens, words, stride, chunks + [w])
    ensures Start(|chunks|, stride) + words < |tokens| ==> StopShort(|tokens|, words, stride, |chunks| + 1)
    ensures Start(|chunks| + 1, stride) == Start(|chunks|, stride) + stride
  {
  }

  /** The first chunk, then every later chunk without the tokens it repeats. */
  function Reassemble<T>(chunks: seq<seq<T>>, overlap: nat): seq<T>
    requires forall i :: 0 < i < |chunks| ==> overlap <= |chunks[i]|
  {
    if chunks == [] then []
    else if |chunks| == 1 then chunks[0]
    else Reassemble(chunks[..|chunks| - 1], overlap) + chunks[|chunks| - 1][overlap..]
  }

  /** Window i of a run, and the one before it, with everything the two say about each other. */
  lemma {:induction false} WindowSizes<T>(tokens: seq<T>, words: nat, overlap: nat, chunks: seq<seq<T>>, i: nat)
    requires overlap < words && AreWindows(tokens, words, words - overlap, chunks)
    requires StopShort(|tokens|, words, words - overlap, |chunks| - 1)
    requires i < |chunks| && tokens != []
    ensures 0 < |chunks[i]| <= words
    ensures i > 0 ==> |chunks[i - 1]| == words && overlap < |chunks[i]|
    ensures i > 0 ==> chunks[i][..overlap] == chunks[i - 1][words - overlap..]
  {
    hide Start, AreWindows, StopShort, Window;
    var stride := words - overlap;
    NextStart(0, stride);
    WindowAt(tokens, words, stride, chunks, i);
    if i > 0 {
      NextStart(i - 1, stride);
      WindowAt(tokens, words, stride, chunks, i - 1);
      var p := Start(i - 1, stride);
      assert p + words < |tokens| by { StopsShortAt(|tokens|, words, stride, |chunks| - 1, i - 1); }
      ConsecutiveWindows(tokens, p, words, overlap);
      assert Start(i, stride) == p + words - overlap;
      WindowSize(tokens, p + words - overlap, words);
    } else {
      WindowSize(tokens, 0, words);
    }
  }

  lemma WindowSize<T>(tokens: seq<T>, start: nat, words: nat)
    requires start <= |tokens|
    ensures |Window(tokens, start, words)| <= words
    ensures start < |tokens| && 0 < words ==> |Window(tokens, start, words)| > 0
  {
  }

  lemma WindowAt<T>(tokens: seq<T>, words: nat, stride: nat, chunks: seq<seq<T>>, i: nat)
    requires AreWindows(tokens, words, stride, chunks) && i < |chunks|
    ensures Start(i, stride) <= |tokens| && chunks[i] == Window(tokens, Start(i, stride), words)
  {
  }

  lemma StopsShortAt(length: nat, words: nat, stride: nat, n: int, i: nat)
    requires StopShort(length, words, stride, n) && i < n
    ensures Start(i, stride) + words < length
  {
  }

  lemma ConsecutiveWindows<T>(tokens: seq<T>, p: nat, words: nat, overlap: nat)
    requires overlap < words && p + words < |tokens|
    ensures var a, b := Window(tokens, p, words), Window(tokens, p + words - overlap, words);
            |a| == words && overlap < |b| && b[..overlap] == a[words - overlap..]
  {
  }

  lemma {:induction false} ReassemblePrefix<T>(tokens: seq<T>, words: nat, overlap: nat, chunks: seq<seq<T>>, n: nat)
    requires overlap < words && AreWindows(tokens, words, words - overlap, chunks)
    requires StopShort(|tokens|, words, words - overlap, |chunks| - 1)
    requires 0 < n <= |chunks| && tokens != []
    ensures forall i :: 0 < i < n ==> overlap <= |chunks[i]|
    ensures Start(n - 1, words - overlap) <= |tokens|
    ensures Reassemble(chunks[..n], overlap)
         == tokens[..Start(n - 1, words - overlap)] + Window(tokens, Start(n - 1, words - overlap), words)
  {
    hide Start, Window;
    var stride := words - overlap;
    NextStart(0, stride);
    assert chunks[n - 1] == Window(tokens, Start(n - 1, stride), words);
    if n == 1 {
      assert chunks[..1] == [chunks[0]];
    } else {
      ReassemblePrefix(tokens, words, overlap, chunks, n - 1);
      WindowSizes(tokens, words, overlap, chunks, n - 1);
      assert chunks[..n][..n - 1] == chunks[..n - 1];
      NextStart(n - 2, stride);
      AppendWindow(tokens, Start(n - 2, stride), words, overlap);
    }
  }

  lemma SplitPrefix<T>(tokens: seq<T>, a: nat, b: nat)
    requires a <= b <= |tokens|
    ensures tokens[..a] + tokens[a..b] == tokens[..b]
  {
  }

  lemma Regroup<T>(a: seq<T>, b: seq<T>, c: seq<T>)
    ensures a + b + c == a + (b + c)
  {
  }

  lemma AppendWindow<T>(tokens: seq<T>, p: nat, words: nat, overlap: nat)
    requires overlap < words && p + words < |tokens|
    ensures p + words - overlap <= |tokens| && overlap <= |Window(tokens, p + words - overlap, words)|
    ensures tokens[..p] + Window(tokens, p, words) + Window(tokens, p + words - overlap, words)[overlap..]
         == tokens[..p + words - overlap] + Window(tokens, p + words - overlap, words)
  {
    var q := p + words - overlap;
    var w := Window(tokens, q, words);
    SplitPrefix(tokens, p, p + words);
    SplitPrefix(tokens, q, p + words);
    assert w[..overlap] == tokens[q..p + words];
    hide Window;
    Regroup(tokens[..q], w[..overlap], w[overlap..]);
    assert tokens[..q] + w[..overlap] == tokens[..p + words];
    assert w == w[..overlap] + w[overlap..];
  }

  /** Chunk i opens with exactly the tail of the full chunk before it. */
  ghost predicate RepeatsTail<T>(chunks: seq<seq<T>>, i: nat, words: nat, overlap: nat)
    requires 0 < i < |chunks| && overlap <= words
  {
    |chunks[i - 1]| == words && overlap < |chunks[i]| && chunks[i][..overlap] == chunks[i - 1][words - overlap..]
  }

  lemma StartIsProduct(i: nat, stride: nat)
    ensures Start(i, stride) == i * stride
  {
    if i > 0 {
      StartIsProduct(i - 1, stride);
      assert (i - 1) * stride + stride == i * stride;
    }
  }

  lemma Multiple(k: int, m: nat)
    ensures k >= 1 ==> k * m >= m
  {
  }

  lemma CeilingIsUnique(a: nat, stride: nat, d: nat)
    requires 0 < a && 0 < stride
    requires d * stride - stride < a <= d * stride
    ensures (a + stride - 1) / stride == d
  {
    var r := a + stride - 1 - d * stride;
    assert 0 <= r < stride;
    DivisionIsUnique(a + stride - 1, stride, d, r);
  }

  lemma DivisionIsUnique(n: nat, m: nat, q: int, r: nat)
    requires 0 < m && r < m && n == q * m + r
    ensures n / m == q
  {
    Multiple(n / m - q, m);
    Multiple(q - n / m, m);
    assert n == (n / m) * m + n % m;
    assert (n / m - q) * m == r - n % m;
    assert (q - n / m) * m == n % m - r;
  }

  /** One chunk for the first `words` tokens and one more for every stride, begun or complete, of the rest. */
  lemma {:induction false} ChunkCount<T>(tokens: seq<T>, words: nat, overlap: nat, chunks: seq<seq<T>>)
    requires overlap < words < |tokens| && IsChunking(tokens, words, overlap, chunks)
    ensures |chunks| == 1 + (|tokens| - words + (words - overlap) - 1) / (words - overlap)
  {
    var stride, d := words - overlap, |chunks| - 1;
    StartIsProduct(d, stride);
    if d > 0 {
      StartIsProduct(d - 1, stride);
      assert Start(d - 1, stride) + words < |tokens|;
      assert d * stride == (d - 1) * stride + stride;
    }
    CeilingIsUnique(|tokens| - words, stride, d);
  }

  /** Chunking loses nothing and repeats exactly the overlap: the token list can be rebuilt from the chunks. */
  lemma {:induction false} ChunksRebuildText<T>(tokens: seq<T>, words: nat, overlap: nat, chunks: seq<seq<T>>)
    requires overlap < words && IsChunking(tokens, words, overlap, chunks)
    ensures forall i :: 0 <= i < |chunks| ==> 0 < |chunks[i]| <= words
    ensures forall i :: 0 < i < |chunks| ==> overlap < |chunks[i]|
    ensures forall i :: 0 < i < |chunks| ==> RepeatsTail(chunks, i, words, overlap)
    ensures Reassemble(chunks, overlap) == tokens
  {
    hide Start, Window, AreWindows, StopShort;
    if |tokens| > words {
      forall i | 0 <= i < |chunks| ensures 0 < |chunks[i]| <= words && (i > 0 ==> overlap < |chunks[i]|) {
        WindowSizes(tokens, words, overlap, chunks, i);
      }
      forall i | 0 < i < |chunks| ensures RepeatsTail(chunks, i, words, overlap) {
        WindowSizes(tokens, words, overlap, chunks, i);
      }
      AllReassembled(tokens, words, overlap, chunks);
    }
  }

  lemma {:induction false} AllReassembled<T>(tokens: seq<T>, words: nat, overlap: nat, chunks: seq<seq<T>>)
    requires overlap < words < |tokens| && IsChunking(tokens, words, overlap, chunks)
    ensures forall i :: 0 < i < |chunks| ==> overlap <= |chunks[i]|
    ensures Reassemble(chunks, overlap) == tokens
  {
    hide Start, AreWindows, StopShort;
    var p := Start(|chunks| - 1, words - overlap);
    ReassemblePrefix(tokens, words, overlap, chunks, |chunks|);
    assert chunks[..|chunks|] == chunks;
    assert tokens[..p] + tokens[p..] == tokens;
    assert Window(tokens, p, words) == tokens[p..];
  }
}
