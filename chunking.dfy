/**
 * Text chunking of the classifier service: fixed windows of words, and
 * overlapping windows of words or of tokens. Words are Python's
 * `str.split()`; the tokenizer is abstract (the token sequence is an input
 * and `convert_tokens_to_string` a function parameter).
 */
module Chunking {
  import opened Wrappers
  import opened Text

  function Min(a: int, b: int): int { if a <= b then a else b }

  /** The start of window `k` when windows advance by `step` from 0. */
  function Start(k: int, step: int): (s: int)
    ensures k >= 0 && step >= 0 ==> s >= 0
    decreases k
  {
    if k <= 0 then 0 else Start(k - 1, step) + step
  }

  lemma StartSucc(k: int, step: int)
    ensures k >= 0 ==> Start(k + 1, step) == Start(k, step) + step
  {
  }

  /** The starts are the multiples `k * step`. */
  lemma {:induction false} StartIsProduct(k: nat, step: int)
    ensures Start(k, step) == k * step
  {
    if k > 0 {
      StartIsProduct(k - 1, step);
      assert (k - 1) * step + step == k * step;
    }
  }

  /** `" ".join(ws)`. */
  function JoinWords(ws: seq<string>): string { JoinWith(ws, " ") }

  /** Non-empty parts are their own non-empty filter. */
  lemma {:induction false} NonEmptyOfNonEmpty(parts: seq<string>)
    requires forall p :: p in parts ==> p != ""
    ensures NonEmpty(parts) == parts
  {
    if parts != [] {
      assert parts[0] in parts;
      assert forall p :: p in parts[1..] ==> p in parts;
      NonEmptyOfNonEmpty(parts[1..]);
      assert [parts[0]] + parts[1..] == parts;
    }
  }

  /** Splitting words joined by a space gives the words back. */
  lemma WordsOfJoin(ws: seq<string>)
    requires forall w :: w in ws ==> w != "" && NoneIn(w, Whitespace)
    ensures Words(JoinWords(ws)) == ws
  {
    if ws == [] {
      assert SplitBy("", Whitespace) == [""];
    } else {
      SplitJoin(ws, ' ', Whitespace);
      NonEmptyOfNonEmpty(ws);
    }
  }

  /** A slice of `Words(text)` joined by spaces splits back into that slice. */
  lemma WordsOfSlice(text: string, a: int, b: int)
    requires 0 <= a <= b <= |Words(text)|
    ensures Words(JoinWords(Words(text)[a..b])) == Words(text)[a..b]
  {
    var ws := Words(text);
    assert forall w :: w in ws[a..b] ==> w in ws;
    WordsOfJoin(ws[a..b]);
  }

  // ---------------------------------------------------------------------------
  // chunk_text

  /** The number of starts in `range(0, n, size)`. */
  function GroupCount(n: int, size: int): (c: nat)
    requires size >= 1
    ensures n <= 0 ==> c == 0
    ensures n > 0 ==> Start(c - 1, size) < n <= Start(c, size)
    decreases n
  {
    if n <= 0 then 0
    else
      var c := 1 + GroupCount(n - size, size);
      StartSucc(c - 1, size);
      StartSucc(c - 2, size);
      c
  }

  /** `[words[i:i+size] for i in range(0, len(words), size)]`, on word lists. */
  function Groups(words: seq<string>, size: int): (r: seq<seq<string>>)
    requires size >= 1
    ensures |r| == GroupCount(|words|, size)
    ensures forall i :: 0 <= i < |r| ==> 1 <= |r[i]| <= size
    decreases |words|
  {
    if words == [] then []
    else
      var cut := Min(|words|, size);
      [words[..cut]] + Groups(words[cut..], size)
  }

  function Flatten(gs: seq<seq<string>>): seq<string> {
    if gs == [] then [] else gs[0] + Flatten(gs[1..])
  }

  /** The groups concatenate back to the word list. */
  lemma {:induction false} GroupsFlatten(words: seq<string>, size: int)
    requires size >= 1
    ensures Flatten(Groups(words, size)) == words
    decreases |words|
  {
    if words != [] {
      var cut := Min(|words|, size);
      GroupsFlatten(words[cut..], size);
      assert Groups(words, size)[1..] == Groups(words[cut..], size);
      assert words[..cut] + words[cut..] == words;
    }
  }

  /** Group `k` is the slice the comprehension takes at `i = k * size`. */
  lemma {:induction false} GroupsAt(words: seq<string>, size: int, k: int)
    requires size >= 1 && 0 <= k < |Groups(words, size)|
    ensures 0 <= Start(k, size) < |words|
    ensures Groups(words, size)[k] == words[Start(k, size)..Min(|words|, Start(k, size) + size)]
    decreases k
  {
    if k > 0 {
      GroupsTail(words, size, k);
      var rest := words[size..];
      GroupsAt(rest, size, k - 1);
      GroupsShift(words, size, k);
      assert Groups(words, size)[k] == Groups(rest, size)[k - 1];
    }
  }

  /** A later group of `words` is the previous group of the words after the first group. */
  lemma GroupsTail(words: seq<string>, size: int, k: int)
    requires size >= 1 && 0 < k < |Groups(words, size)|
    ensures size < |words|
    ensures k - 1 < |Groups(words[size..], size)|
    ensures Groups(words, size)[k] == Groups(words[size..], size)[k - 1]
  {
    assert words != [];
    var cut := Min(|words|, size);
    assert Groups(words, size) == [words[..cut]] + Groups(words[cut..], size);
  }

  /** The index arithmetic of one step of `GroupsAt`. */
  lemma GroupsShift(words: seq<string>, size: int, k: int)
    requires size >= 1 && 0 < k && size < |words|
    requires 0 <= Start(k - 1, size) < |words| - size
    ensures 0 <= Start(k, size) < |words|
    ensures words[size..][Start(k - 1, size)..Min(|words| - size, Start(k - 1, size) + size)]
         == words[Start(k, size)..Min(|words|, Start(k, size) + size)]
  {
    StartSucc(k - 1, size);
  }

  lemma SliceShift<T>(xs: seq<T>, cut: int, a: int, b: int)
    requires 0 <= cut <= |xs| && 0 <= a <= b <= |xs| - cut
    ensures xs[cut..][a..b] == xs[cut + a..cut + b]
  {
  }

  /** `chunk_text(text, max_words)`; a zero step makes `range` raise. */
  function ChunkText(text: string, maxWords: int): (r: Outcome<seq<string>>)
    ensures |Words(text)| <= maxWords ==> r == Ok([text])
    ensures |Words(text)| > maxWords && maxWords == 0 ==> r.Thrown?
    ensures |Words(text)| > maxWords && maxWords < 0 ==> r == Ok([])
  {
    var words := Words(text);
    if |words| <= maxWords then Ok([text])
    else if maxWords == 0 then Thrown("range() arg 3 must not be zero")
    else if maxWords < 0 then Ok([])
    else
      var gs := Groups(words, maxWords);
      Ok(seq(|gs|, i requires 0 <= i < |gs| => JoinWords(gs[i])))
  }

  /**
   * A text of more than `maxWords >= 1` words is cut into ceil(n / maxWords)
   * chunks of at most `maxWords` words each, whose words, in order, are the
   * text's words.
   */
  lemma ChunkTextSplits(text: string, maxWords: int)
    requires maxWords >= 1 && |Words(text)| > maxWords
    ensures var r := ChunkText(text, maxWords);
      && r.Ok?
      && var n := |Words(text)|;
      && Start(|r.value| - 1, maxWords) < n <= Start(|r.value|, maxWords)
      && (forall i :: 0 <= i < |r.value| ==> 1 <= |Words(r.value[i])| <= maxWords)
      && Flatten(WordsOf(r.value)) == Words(text)
  {
    var words := Words(text);
    var gs := Groups(words, maxWords);
    ChunkWordsAreGroups(text, maxWords);
    GroupsFlatten(words, maxWords);
    var r := ChunkText(text, maxWords).value;
    forall i | 0 <= i < |r| ensures 1 <= |Words(r[i])| <= maxWords {
      assert WordsOf(r)[i] == Words(r[i]);
    }
  }

  /** The words of each chunk. */
  function WordsOf(chunks: seq<string>): (r: seq<seq<string>>)
    ensures |r| == |chunks| && forall i :: 0 <= i < |chunks| ==> r[i] == Words(chunks[i])
  {
    seq(|chunks|, i requires 0 <= i < |chunks| => Words(chunks[i]))
  }

  /** Chunk `i` splits back into group `i`. */
  lemma ChunkWordsAreGroups(text: string, maxWords: int)
    requires maxWords >= 1 && |Words(text)| > maxWords
    ensures ChunkText(text, maxWords).Ok?
    ensures WordsOf(ChunkText(text, maxWords).value) == Groups(Words(text), maxWords)
  {
    var words := Words(text);
    var gs := Groups(words, maxWords);
    var r := ChunkText(text, maxWords).value;
    assert |r| == |gs|;
    GroupsFlatten(words, maxWords);
    forall i | 0 <= i < |gs| ensures Words(r[i]) == gs[i] {
      FlattenHas(gs, i);
      assert forall w :: w in gs[i] ==> w in words;
      assert r[i] == JoinWords(gs[i]);
      WordsOfJoin(gs[i]);
    }
  }

  lemma {:induction false} FlattenHas(gs: seq<seq<string>>, i: int)
    requires 0 <= i < |gs|
    ensures forall w :: w in gs[i] ==> w in Flatten(gs)
    decreases i
  {
    if i > 0 {
      FlattenHas(gs[1..], i - 1);
      assert gs[1..][i - 1] == gs[i];
    }
  }

  // ---------------------------------------------------------------------------
  // The overlapping windows of chunk_text_overlap and chunk_text_by_tokens

  /**
   * The `m` windows the loops visit over a sequence of length `n`: window
   * `k` starts at `k * step`, every window but the last ends before `n`, and
   * the loop stopped because the last window reached `n` or the next start
   * passed it.
   */
  predicate Windowed(n: int, size: int, step: int, m: int) {
    && m >= 1
    && (forall k :: 0 <= k < m ==> 0 <= Start(k, step) < n)
    && (forall k :: 0 <= k < m - 1 ==> Start(k, step) + size < n)
    && (Start(m - 1, step) + size >= n || Start(m, step) >= n)
  }

  /** `xs[start:min(len(xs), start + size)]` for window `k`. */
  function Window<T>(xs: seq<T>, k: int, size: int, step: int): (w: seq<T>)
    requires 0 <= Start(k, step) < |xs| && size >= 1
    ensures 1 <= |w| <= size
  {
    xs[Start(k, step)..Min(|xs|, Start(k, step) + size)]
  }

  /** With a non-negative overlap the last window always ends at the last element. */
  lemma LastWindowReachesEnd(n: int, size: int, step: int, m: int)
    requires Windowed(n, size, step, m) && 1 <= step <= size
    ensures Start(m - 1, step) + size >= n
  {
    StartSucc(m - 1, step);
    if m >= 2 {
      assert Start(m - 2, step) + size < n;
      StartSucc(m - 2, step);
    }
  }

  /** With a non-negative overlap every position lies in some window. */
  lemma WindowsCover(n: int, size: int, step: int, m: int, j: int)
    requires Windowed(n, size, step, m) && 1 <= step <= size && 0 <= j < n
    ensures exists k :: 0 <= k < m && Start(k, step) <= j < Start(k, step) + size
  {
    LastWindowReachesEnd(n, size, step, m);
    var k := 0;
    while k < m - 1 && Start(k + 1, step) <= j
      invariant 0 <= k < m && Start(k, step) <= j
      decreases m - k
    {
      k := k + 1;
    }
    if k < m - 1 {
      StartSucc(k, step);
    }
    assert Start(k, step) <= j < Start(k, step) + size;
  }

  /** The loops' bookkeeping: each of the first `m` windows started inside and ended before `n`. */
  predicate Visited(n: int, size: int, step: int, m: int) {
    forall k :: 0 <= k < m ==> 0 <= Start(k, step) && Start(k, step) + size < n
  }

  /** A window that ends before `n` lets the loop go on. */
  lemma Visit(n: int, size: int, step: int, m: int)
    requires step >= 1 && m >= 0 && Visited(n, size, step, m) && Start(m, step) + size < n
    ensures Visited(n, size, step, m + 1)
  {
  }

  /** The loop stops after window `m`: its window reached `n`, or the next start passed it. */
  lemma Finish(n: int, size: int, step: int, m: int)
    requires size >= 1 && step >= 1 && m >= 0 && Visited(n, size, step, m) && Start(m, step) < n
    requires Start(m, step) + size >= n || Start(m + 1, step) >= n
    ensures Windowed(n, size, step, m + 1)
  {
    forall k | 0 <= k < m + 1 ensures 0 <= Start(k, step) < n {
      if k < m { assert 0 <= Start(k, step) && Start(k, step) + size < n; }
    }
  }

  /** Python's `xs[:m]`: a negative bound counts from the end. */
  function PyPrefix<T>(xs: seq<T>, m: int): (r: seq<T>)
    ensures |r| <= |xs| && r == xs[..|r|]
    ensures m >= 0 ==> |r| == Min(|xs|, m)
    ensures m < 0 ==> |r| == if |xs| + m >= 0 then |xs| + m else 0
  {
    if m >= 0 then xs[..Min(|xs|, m)]
    else if |xs| + m >= 0 then xs[..|xs| + m]
    else []
  }

  /** Chunk `k` is window `k` of `words`, joined by spaces. */
  predicate WindowChunks(words: seq<string>, chunks: seq<string>, size: int, step: int)
    requires size >= 1
  {
    forall k :: 0 <= k < |chunks| ==>
      0 <= Start(k, step) < |words| && chunks[k] == JoinWords(Window(words, k, size, step))
  }

  lemma ExtendWindowChunks(words: seq<string>, chunks: seq<string>, size: int, step: int)
    requires size >= 1 && WindowChunks(words, chunks, size, step) && 0 <= Start(|chunks|, step) < |words|
    ensures WindowChunks(words, chunks + [JoinWords(Window(words, |chunks|, size, step))], size, step)
  {
  }

  /** `chunk_text_overlap(text, chunk_size, overlap)`. */
  method ChunkTextOverlap(text: string, chunkSize: int, overlap: int) returns (chunks: seq<string>)
    requires chunkSize >= 1 && overlap < chunkSize
    ensures |Words(text)| <= chunkSize ==> chunks == [text]
    ensures |Words(text)| > chunkSize ==>
      && Windowed(|Words(text)|, chunkSize, chunkSize - overlap, |chunks|)
      && forall k :: 0 <= k < |chunks| ==>
           chunks[k] == JoinWords(Window(Words(text), k, chunkSize, chunkSize - overlap))
  {
    var words := Words(text);
    if |words| <= chunkSize {
      return [text];
    }
    var step := chunkSize - overlap;
    chunks := [];
    var start := 0;
    while start < |words|
      invariant start == Start(|chunks|, step)
      invariant Visited(|words|, chunkSize, step, |chunks|)
      invariant WindowChunks(words, chunks, chunkSize, step)
      decreases |words| - start
    {
      var end := Min(|words|, start + chunkSize);
      ghost var m := |chunks|;
      assert words[start..end] == Window(words, m, chunkSize, step);
      ExtendWindowChunks(words, chunks, chunkSize, step);
      chunks := chunks + [JoinWords(words[start..end])];
      StartSucc(m, step);
      if end == |words| {
        Finish(|words|, chunkSize, step, m);
        return;
      }
      Visit(|words|, chunkSize, step, m);
      start := start + step;
    }
    Finish(|words|, chunkSize, step, |chunks| - 1);
  }

  /** Each overlapping chunk holds at most `chunkSize` words, read back from its window. */
  lemma OverlapChunkWords(text: string, chunkSize: int, step: int, k: int)
    requires chunkSize >= 1 && 0 <= Start(k, step) < |Words(text)|
    ensures Words(JoinWords(Window(Words(text), k, chunkSize, step))) == Window(Words(text), k, chunkSize, step)
    ensures |Words(JoinWords(Window(Words(text), k, chunkSize, step)))| <= chunkSize
  {
    WordsOfSlice(text, Start(k, step), Min(|Words(text)|, Start(k, step) + chunkSize));
  }

  /**
   * `chunk_text_by_tokens` over the tokenizer's output `tokens`, with
   * `detokenize` for `convert_tokens_to_string`. Alongside the strings it
   * returns the token list of each chunk.
   */
  method ChunkTokens<T>(tokens: seq<T>, detokenize: seq<T> -> string, chunkSize: int, overlap: int, maxLength: int)
    returns (chunks: seq<string>, chunkTokens: seq<seq<T>>)
    requires chunkSize >= 1 && overlap < chunkSize
    ensures |chunks| == |chunkTokens|
    ensures forall k :: 0 <= k < |chunks| ==> chunks[k] == detokenize(chunkTokens[k])
    ensures |tokens| <= chunkSize ==> chunkTokens == [PyPrefix(tokens, maxLength)]
    ensures |tokens| > chunkSize ==>
      && Windowed(|tokens|, chunkSize, chunkSize - overlap, |chunks|)
      && forall k :: 0 <= k < |chunks| ==>
           chunkTokens[k] == PyPrefix(Window(tokens, k, chunkSize, chunkSize - overlap), maxLength)
  {
    if |tokens| <= chunkSize {
      var chunk := PyPrefix(tokens, maxLength);
      return [detokenize(chunk)], [chunk];
    }
    var step := chunkSize - overlap;
    chunks, chunkTokens := [], [];
    var start := 0;
    while start < |tokens|
      invariant start == Start(|chunks|, step)
      invariant Visited(|tokens|, chunkSize, step, |chunks|)
      invariant Detokenized(chunks, chunkTokens, detokenize)
      invariant TokenWindows(tokens, chunkTokens, chunkSize, step, maxLength)
      decreases |tokens| - start
    {
      var end := Min(|tokens|, start + chunkSize);
      var window := tokens[start..end];
      window := PyPrefix(window, maxLength);
      ghost var m := |chunks|;
      assert window == PyPrefix(Window(tokens, m, chunkSize, step), maxLength);
      ExtendTokenWindows(tokens, chunkTokens, chunkSize, step, maxLength);
      ExtendDetokenized(chunks, chunkTokens, detokenize, window);
      chunks, chunkTokens := chunks + [detokenize(window)], chunkTokens + [window];
      StartSucc(m, step);
      if end == |tokens| {
        Finish(|tokens|, chunkSize, step, m);
        return;
      }
      Visit(|tokens|, chunkSize, step, m);
      start := start + step;
    }
    Finish(|tokens|, chunkSize, step, |chunks| - 1);
  }

  /** Token chunk `k` is window `k`, cut by `[:max_length]`. */
  ghost predicate TokenWindows<T>(tokens: seq<T>, chunkTokens: seq<seq<T>>, size: int, step: int, maxLength: int)
    requires size >= 1
  {
    forall k :: 0 <= k < |chunkTokens| ==>
      0 <= Start(k, step) < |tokens| && chunkTokens[k] == PyPrefix(Window(tokens, k, size, step), maxLength)
  }

  /** Each string chunk is its token chunk, detokenized. */
  ghost predicate Detokenized<T>(chunks: seq<string>, chunkTokens: seq<seq<T>>, detokenize: seq<T> -> string) {
    |chunks| == |chunkTokens| && forall k :: 0 <= k < |chunks| ==> chunks[k] == detokenize(chunkTokens[k])
  }

  lemma ExtendDetokenized<T>(chunks: seq<string>, chunkTokens: seq<seq<T>>, detokenize: seq<T> -> string, window: seq<T>)
    requires Detokenized(chunks, chunkTokens, detokenize)
    ensures Detokenized(chunks + [detokenize(window)], chunkTokens + [window], detokenize)
  {
  }

  lemma ExtendTokenWindows<T>(tokens: seq<T>, chunkTokens: seq<seq<T>>, size: int, step: int, maxLength: int)
    requires size >= 1 && TokenWindows(tokens, chunkTokens, size, step, maxLength)
    requires 0 <= Start(|chunkTokens|, step) < |tokens|
    ensures TokenWindows(tokens, chunkTokens + [PyPrefix(Window(tokens, |chunkTokens|, size, step), maxLength)], size, step, maxLength)
  {
  }

  /** A token chunk is a prefix of its window, of at most `chunkSize` and at most `maxLength` tokens. */
  lemma TokenChunkBound<T>(window: seq<T>, chunkSize: int, maxLength: int)
    requires |window| <= chunkSize
    ensures var c := PyPrefix(window, maxLength);
      c == window[..|c|] && |c| <= chunkSize && (maxLength >= 0 ==> |c| <= maxLength)
  {
  }
}
