/** Overlapping text chunks by word count (app/services/knowledge_service.py, _chunk_text). */
module Chunking {
  import opened Options

  // ------------------------------------------------------------------
  // Words
  // ------------------------------------------------------------------

  /** The characters at which a string splits when no separator is given. */
  predicate Blank(c: char) {
    || '\t' <= c <= '\r' || '\U{1c}' <= c <= ' ' || c == '\U{85}' || c == '\U{a0}' || c == '\U{1680}'
    || '\U{2000}' <= c <= '\U{200a}' || c == '\U{2028}' || c == '\U{2029}' || c == '\U{202f}' || c == '\U{205f}'
    || c == '\U{3000}'
  }

  function WordLength(t: string): (n: nat)
    ensures n <= |t| && (forall i :: 0 <= i < n ==> !Blank(t[i])) && (n < |t| ==> Blank(t[n]))
  {
    if t == "" || Blank(t[0]) then 0 else 1 + WordLength(t[1..])
  }

  /** text.split() */
  function Words(t: string): seq<string>
    decreases |t|
  {
    if t == "" then []
    else if Blank(t[0]) then Words(t[1..])
    else
      var n := WordLength(t);
      [t[..n]] + Words(t[n..])
  }

  predicate IsWord(w: string) {
    w != "" && forall i :: 0 <= i < |w| ==> !Blank(w[i])
  }

  /** " ".join(words) */
  function Join(ws: seq<string>): string {
    if ws == [] then "" else if |ws| == 1 then ws[0] else ws[0] + " " + Join(ws[1..])
  }

  /** Splitting breaks at every blank and nowhere else: these three laws determine it on every text. */
  lemma {:induction false} SplitsAtBlanks(a: string, c: char, b: string)
    requires Blank(c)
    ensures Words(a + [c] + b) == Words(a) + Words(b)
    decreases |a|
  {
    var t := a + [c] + b;
    if a == "" {
      assert t[1..] == b;
    } else if Blank(a[0]) {
      assert t[1..] == a[1..] + [c] + b;
      SplitsAtBlanks(a[1..], c, b);
    } else {
      var n := WordLength(a);
      LengthBefore(a, [c] + b);
      assert a + ([c] + b) == t && t[..n] == a[..n] && t[n..] == a[n..] + [c] + b;
      SplitsAtBlanks(a[n..], c, b);
    }
  }

  /** A word's length does not depend on what follows a blank. */
  lemma LengthBefore(a: string, rest: string)
    requires a != "" && !Blank(a[0]) && rest != "" && Blank(rest[0])
    ensures WordLength(a + rest) == WordLength(a) > 0
  {
    var t, n := a + rest, WordLength(a);
    assert forall i :: 0 <= i < |a| ==> t[i] == a[i];
    assert t[|a|] == rest[0];
  }

  lemma WordsOfWord(w: string)
    ensures IsWord(w) ==> Words(w) == [w]
    ensures Words("") == []
  {
    if IsWord(w) { OneWord(w); }
  }

  /** Tabs, line breaks, no-break and ideographic spaces separate words as a space does; letters do not. */
  lemma BlankExamples()
    ensures Blank(' ') && Blank('\t') && Blank('\n') && Blank('\r') && Blank('\U{a0}') && Blank('\U{3000}')
    ensures !Blank('a') && !Blank('-') && !Blank('\0') && !Blank('\U{200b}')
  {
  }

  /** Joining puts one space between words. */
  lemma {:induction false} JoinConcat(a: seq<string>, b: seq<string>)
    requires a != [] && b != []
    ensures Join(a + b) == Join(a) + " " + Join(b)
  {
    assert (a + b)[1..] == a[1..] + b;
    if |a| == 1 {
      assert a[1..] + b == b;
    } else {
      JoinConcat(a[1..], b);
      assert a[0] + " " + (Join(a[1..]) + " " + Join(b)) == a[0] + " " + Join(a[1..]) + " " + Join(b);
    }
  }

  lemma {:induction false} SplitGivesWords(t: string)
    ensures forall w :: w in Words(t) ==> IsWord(w)
    decreases |t|
  {
    if t != "" {
      if Blank(t[0]) {
        SplitGivesWords(t[1..]);
      } else {
        SplitGivesWords(t[WordLength(t)..]);
      }
    }
  }

  /** Joined words split back into the same words. */
  lemma {:induction false} SplitJoin(ws: seq<string>)
    requires forall w :: w in ws ==> IsWord(w)
    ensures Words(Join(ws)) == ws
  {
    hide Words, IsWord;
    if ws == [] {
      NoWords();
    } else if |ws| == 1 {
      OneWord(ws[0]);
    } else {
      SplitJoin(ws[1..]);
      WordThenRest(ws[0], Join(ws[1..]));
    }
  }

  lemma NoWords()
    ensures Words("") == []
  {
  }

  lemma OneWord(w: string)
    requires IsWord(w)
    ensures Words(w) == [w]
  {
    var n := WordLength(w);
    assert n == |w| && w[..n] == w && w[n..] == "";
  }

  lemma WordThenRest(w: string, rest: string)
    requires IsWord(w)
    ensures Words(w + " " + rest) == [w] + Words(rest)
  {
    var t := w + " " + rest;
    FirstWord(w, rest);
    assert t[..|w|] == w && t[|w|..] == " " + rest && (" " + rest)[1..] == rest;
  }

  lemma FirstWord(w: string, rest: string)
    requires IsWord(w)
    ensures WordLength(w + " " + rest) == |w|
  {
    var t := w + " " + rest;
    assert t[|w|] == ' ' && forall i :: 0 <= i < |w| ==> t[i] == w[i];
  }

  // ------------------------------------------------------------------
  // Chunks of a word list
  // ------------------------------------------------------------------

  function Min(a: int, b: int): int {
    if a < b then a else b
  }

  /** Where chunk k starts. */
  function Start(k: int, size: int, overlap: int): int {
    k * (size - overlap)
  }

  function End(n: nat, k: int, size: int, overlap: int): int {
    Min(Start(k, size, overlap) + size, n)
  }

  lemma StartNext(k: int, size: int, overlap: int)
    ensures Start(k + 1, size, overlap) == Start(k, size, overlap) + size - overlap
    ensures Start(0, size, overlap) == 0
  {
    assert (k + 1) * (size - overlap) == k * (size - overlap) + (size - overlap);
  }

  /** Chunk k starts size - overlap words after chunk k - 1 and ends at the last word at the latest. */
  function Chunk(ws: seq<string>, size: int, overlap: int, k: int): seq<string>
    requires 0 <= Start(k, size, overlap) <= |ws| && 1 <= size
  {
    ws[Start(k, size, overlap)..End(|ws|, k, size, overlap)]
  }

  /** ceil((n - overlap) / (size - overlap)) chunks as soon as one does not hold everything. */
  function Count(n: nat, size: int, overlap: int): nat
    requires 1 <= size && 0 <= overlap && (n <= size || overlap < size)
  {
    if n == 0 then 0 else if n <= size then 1 else (n - overlap + size - overlap - 1) / (size - overlap)
  }

  lemma {:induction false} NotNegative(d: nat, s: int)
    requires s > 0
    ensures d * s >= 0
  {
    if d > 0 {
      NotNegative(d - 1, s);
      assert d * s == (d - 1) * s + s;
    }
  }

  lemma Multiples(a: int, b: int, s: int)
    requires s > 0
    ensures a <= b ==> a * s <= b * s
    ensures a < b ==> a * s + s <= b * s
  {
    if a < b {
      NotNegative(b - a - 1, s);
      assert b * s == a * s + s + (b - a - 1) * s;
    }
  }

  lemma CeilIs(x: int, s: int, c: int)
    requires s > 0 && (c - 1) * s < x <= c * s
    ensures (x + s - 1) / s == c
  {
    var q := (x + s - 1) / s;
    assert q * s <= x + s - 1 < q * s + s;
    Multiples(q, c - 1, s);
    Multiples(c + 1, q, s);
    Multiples(q, c, s);
  }

  /** Which k are chunks: every one but the last ends before the last word, the last one ends with it,
      and even the last one has a word that its predecessor lacks. */
  lemma ChunkBounds(n: nat, size: int, overlap: int, k: int)
    requires n > 0 && 1 <= size && 0 <= overlap && (n <= size || overlap < size)
    requires 0 <= k < Count(n, size, overlap)
    ensures 0 <= Start(k, size, overlap) < n
    ensures k + 1 < Count(n, size, overlap) ==> Start(k, size, overlap) + size < n
    ensures k + 1 == Count(n, size, overlap) ==> Start(k, size, overlap) + size >= n
    ensures k > 0 ==> Start(k, size, overlap) + overlap < n
  {
    if n > size {
      var s, x, c := size - overlap, n - overlap, Count(n, size, overlap);
      assert c * s <= x + s - 1 < c * s + s;
      Multiples(k + 1, c, s);
      Multiples(k + 2, c, s);
      assert (k + 1) * s == k * s + s && (k + 2) * s == k * s + 2 * s;
      assert 0 <= k * s by { Multiples(0, k, s); }
    }
  }

  /** The chunks are what _chunk_text promises: full except the last, and each later one repeats exactly
      the last overlap words of the one before. */
  lemma ChunksOverlap(ws: seq<string>, size: int, overlap: int, k: int)
    requires 1 <= size && 0 <= overlap && (|ws| <= size || overlap < size)
    requires 0 <= k && k + 1 < Count(|ws|, size, overlap)
    ensures 0 <= Start(k, size, overlap) <= Start(k + 1, size, overlap) <= |ws|
    ensures var a, b := Chunk(ws, size, overlap, k), Chunk(ws, size, overlap, k + 1);
            |a| == size && overlap < |b| && a[size - overlap..] == b[..overlap]
  {
    ChunkBounds(|ws|, size, overlap, k);
    ChunkBounds(|ws|, size, overlap, k + 1);
    StartNext(k, size, overlap);
  }

  /** The first of n chunks, then each later one without its overlap. */
  function Rebuilt(chunks: seq<seq<string>>, n: nat, overlap: nat): seq<string>
    requires n <= |chunks| && forall k :: 1 <= k < |chunks| ==> overlap <= |chunks[k]|
  {
    if n == 0 then []
    else if n == 1 then chunks[0]
    else Rebuilt(chunks, n - 1, overlap) + chunks[n - 1][overlap..]
  }

  ghost predicate AreChunks(chunks: seq<seq<string>>, ws: seq<string>, size: int, overlap: int)
    requires 1 <= size && 0 <= overlap && (|ws| <= size || overlap < size)
  {
    && |chunks| == Count(|ws|, size, overlap)
    && forall k :: 0 <= k < |chunks| ==>
         0 <= Start(k, size, overlap) <= |ws| && chunks[k] == Chunk(ws, size, overlap, k)
  }

  lemma ChunkLengths(chunks: seq<seq<string>>, ws: seq<string>, size: int, overlap: int)
    requires 1 <= size && 0 <= overlap && (|ws| <= size || overlap < size)
    requires AreChunks(chunks, ws, size, overlap)
    ensures forall k :: 1 <= k < |chunks| ==> overlap < |chunks[k]|
  {
    forall k | 1 <= k < |chunks| ensures overlap < |chunks[k]| {
      ChunkBounds(|ws|, size, overlap, k);
      ChunkBounds(|ws|, size, overlap, k - 1);
    }
  }

  lemma EndsMeet(n: nat, k: int, size: int, overlap: int)
    requires 1 <= size && 0 <= overlap && (n <= size || overlap < size)
    requires n > 0 && 0 <= k && k + 1 < Count(n, size, overlap)
    ensures 0 <= Start(k + 1, size, overlap)
    ensures Start(k + 1, size, overlap) + overlap == End(n, k, size, overlap) <= End(n, k + 1, size, overlap) <= n
  {
    hide Start, Count;
    ChunkBounds(n, size, overlap, k);
    ChunkBounds(n, size, overlap, k + 1);
    StartNext(k, size, overlap);
  }

  lemma {:induction false} PrefixRebuilds(chunks: seq<seq<string>>, ws: seq<string>, size: int, overlap: int, m: nat)
    requires 1 <= size && 0 <= overlap && (|ws| <= size || overlap < size)
    requires AreChunks(chunks, ws, size, overlap) && 0 < m <= |chunks| && ws != []
    requires forall k :: 1 <= k < |chunks| ==> overlap <= |chunks[k]|
    ensures 0 <= End(|ws|, m - 1, size, overlap) <= |ws|
    ensures Rebuilt(chunks, m, overlap) == ws[..End(|ws|, m - 1, size, overlap)]
  {
    hide Start, Count;
    var n := m - 1;
    StartNext(0, size, overlap);
    assert 0 <= Start(n, size, overlap) <= |ws| && chunks[n] == Chunk(ws, size, overlap, n);
    if n > 0 {
      hide End, AreChunks;
      PrefixRebuilds(chunks, ws, size, overlap, n);
      EndsMeet(|ws|, n - 1, size, overlap);
      Glue(ws, End(|ws|, n - 1, size, overlap), Start(n, size, overlap), End(|ws|, n, size, overlap), overlap);
    }
  }

  lemma Glue(ws: seq<string>, end: int, start: int, next: int, overlap: nat)
    requires 0 <= start && start + overlap == end <= next <= |ws|
    ensures ws[..end] + ws[start..next][overlap..] == ws[..next]
  {
  }

  /** Nothing is lost and nothing but the overlap is repeated. */
  lemma ChunksRebuildWords(chunks: seq<seq<string>>, ws: seq<string>, size: int, overlap: int)
    requires 1 <= size && 0 <= overlap && (|ws| <= size || overlap < size)
    requires AreChunks(chunks, ws, size, overlap)
    ensures forall k :: 1 <= k < |chunks| ==> overlap <= |chunks[k]|
    ensures Rebuilt(chunks, |chunks|, overlap) == ws
  {
    ChunkLengths(chunks, ws, size, overlap);
    if ws != [] {
      ChunkBounds(|ws|, size, overlap, Count(|ws|, size, overlap) - 1);
      PrefixRebuilds(chunks, ws, size, overlap, |chunks|);
    }
  }

  function Split(texts: seq<string>): seq<seq<string>> {
    seq(|texts|, i requires 0 <= i < |texts| => Words(texts[i]))
  }

  ghost predicate AreTexts(texts: seq<string>, ws: seq<string>, size: int, overlap: int)
    requires 1 <= size && 0 <= overlap && (|ws| <= size || overlap < size)
  {
    && |texts| == Count(|ws|, size, overlap)
    && forall k :: 0 <= k < |texts| ==>
         0 <= Start(k, size, overlap) <= |ws| && texts[k] == Join(Chunk(ws, size, overlap, k))
  }

  /** The texts produced, read back word by word, give the words of the original. */
  lemma TextsRebuild(text: string, texts: seq<string>, size: int, overlap: int)
    requires 1 <= size && 0 <= overlap && (|Words(text)| <= size || overlap < size)
    requires AreTexts(texts, Words(text), size, overlap)
    ensures forall k :: 1 <= k < |texts| ==> overlap <= |Words(texts[k])|
    ensures Rebuilt(Split(texts), |texts|, overlap) == Words(text)
  {
    var ws := Words(text);
    SplitGivesWords(text);
    forall k | 0 <= k < |texts| ensures Words(texts[k]) == Chunk(ws, size, overlap, k) {
      SplitJoin(Chunk(ws, size, overlap, k));
    }
    ChunksRebuildWords(Split(texts), ws, size, overlap);
  }

  // ------------------------------------------------------------------
  // The loop, and when it ends
  // ------------------------------------------------------------------

  /** Before the round that starts at start. */
  ghost predicate SoFar(texts: seq<string>, ws: seq<string>, size: int, overlap: int, start: int)
    requires 1 <= size
  {
    && start == Start(|texts|, size, overlap)
    && (texts != [] ==> start + overlap < |ws| && size < |ws|)
    && forall k :: 0 <= k < |texts| ==>
         0 <= Start(k, size, overlap) <= |ws| && texts[k] == Join(Chunk(ws, size, overlap, k))
  }

  lemma NextChunk(texts: seq<string>, ws: seq<string>, size: int, overlap: int, start: int, end: int)
    requires 1 <= size && 0 <= start < |ws| && SoFar(texts, ws, size, overlap, start)
    requires end == Min(start + size, |ws|)
    ensures var next := texts + [Join(ws[start..end])];
            && (forall k :: 0 <= k < |next| ==>
                  0 <= Start(k, size, overlap) <= |ws| && next[k] == Join(Chunk(ws, size, overlap, k)))
            && Start(|next|, size, overlap) == start + (size - overlap)
            && (end < |ws| ==> SoFar(next, ws, size, overlap, start + size - overlap))
  {
    hide Join, Start;
    StartNext(|texts|, size, overlap);
    assert ws[start..end] == Chunk(ws, size, overlap, |texts|);
  }

  lemma LastChunk(texts: seq<string>, ws: seq<string>, size: int, overlap: int, start: int)
    requires 1 <= size && 0 <= overlap && (|ws| <= size || overlap < size)
    requires 0 <= start < |ws| <= start + size && texts != []
    requires Start(|texts|, size, overlap) == start + (size - overlap)
    requires |texts| > 1 ==> start + overlap < |ws|
    requires |ws| <= size ==> |texts| == 1
    requires forall k :: 0 <= k < |texts| ==>
               0 <= Start(k, size, overlap) <= |ws| && texts[k] == Join(Chunk(ws, size, overlap, k))
    ensures AreTexts(texts, ws, size, overlap)
  {
    hide Join, Chunk;
    var s := size - overlap;
    if |ws| > size {
      assert (|texts| - 1) * s == |texts| * s - s;
      CeilIs(|ws| - overlap, s, |texts|);
    }
  }

  /** With chunks still to come, their number is above the number so far. */
  lemma MoreToCome(texts: seq<string>, ws: seq<string>, size: int, overlap: int, start: int)
    requires 1 <= size && 0 <= overlap && (|ws| <= size || overlap < size)
    requires 0 <= start < |ws| && SoFar(texts, ws, size, overlap, start)
    ensures |texts| < Count(|ws|, size, overlap)
  {
    hide Join, Chunk;
    if texts != [] {
      var s, x, c := size - overlap, |ws| - overlap, Count(|ws|, size, overlap);
      assert |texts| * s < x && c * s <= x + s - 1 < c * s + s;
      Multiples(c, |texts|, s);
    }
  }

  /** words[a:b], which counts negative positions from the end. */
  function Slice(ws: seq<string>, a: int, b: int): (r: seq<string>)
    ensures 0 <= a <= b <= |ws| ==> r == ws[a..b]
  {
    var lo, hi := Position(|ws|, a), Position(|ws|, b);
    if lo < hi then ws[lo..hi] else []
  }

  function Position(n: nat, a: int): (p: nat)
    ensures p <= n && (0 <= a <= n ==> p == a)
  {
    if a < 0 then (if a + n < 0 then 0 else a + n) else Min(a, n)
  }

  /** The loop of _chunk_text for at most `patience` rounds: it is done within them exactly when it ends at
      all and there are that few chunks, and then it has produced exactly those chunks. */
  method ChunkText(text: string, chunkSize: int, overlap: int, patience: nat)
    returns (chunks: seq<string>, done: bool)
    requires 1 <= chunkSize && 0 <= overlap
    ensures done <==> && (|Words(text)| <= chunkSize || overlap < chunkSize)
                      && Count(|Words(text)|, chunkSize, overlap) <= patience
    ensures done ==> AreTexts(chunks, Words(text), chunkSize, overlap)
  {
    var words := Words(text);
    chunks := [];
    if words == [] {
      return chunks, true;
    }
    hide Words, Join, Start, Chunk, Count, AreTexts, Slice;
    StartNext(0, chunkSize, overlap);
    var start := 0;
    ghost var ends := |words| <= chunkSize || overlap < chunkSize;
    while start < |words|
      invariant |chunks| <= patience && start < |words|
      invariant if ends then 0 <= start && SoFar(chunks, words, chunkSize, overlap, start) else start <= 0
      decreases patience - |chunks|
    {
      if |chunks| == patience {
        if ends { MoreToCome(chunks, words, chunkSize, overlap, start); }
        return chunks, false;
      }
      var end := Min(start + chunkSize, |words|);
      if ends { NextChunk(chunks, words, chunkSize, overlap, start, end); }
      chunks := chunks + [Join(Slice(words, start, end))];
      if end == |words| {
        LastChunk(chunks, words, chunkSize, overlap, start);
        return chunks, true;
      }
      start := start + chunkSize - overlap;
    }
    done := true;
  }

  /** One round of the loop on a list of n words: where the next round starts, if there is one. */
  function Round(n: nat, size: int, overlap: int, start: int): Option<int> {
    if start >= n || Min(start + size, n) == n then None else Some(start + size - overlap)
  }

  /** The start of round k, while the loop still runs. */
  function StartOf(n: nat, size: int, overlap: int, k: nat): Option<int> {
    if k == 0 then Some(0)
    else match StartOf(n, size, overlap, k - 1)
      case None => None
      case Some(start) => Round(n, size, overlap, start)
  }

  ghost predicate Halts(n: nat, size: int, overlap: int) {
    exists k: nat :: StartOf(n, size, overlap, k) == None
  }

  lemma {:induction false} NeverAdvances(n: nat, size: int, overlap: int, k: nat)
    requires 1 <= size <= overlap && size < n
    ensures StartOf(n, size, overlap, k).Some? && StartOf(n, size, overlap, k).value <= 0
  {
    if k > 0 {
      NeverAdvances(n, size, overlap, k - 1);
    }
  }

  lemma {:induction false} AlwaysAdvances(n: nat, size: int, overlap: int, k: nat)
    requires 1 <= size && overlap < size
    ensures StartOf(n, size, overlap, k).Some? ==> StartOf(n, size, overlap, k).value >= k
  {
    if k > 0 {
      AlwaysAdvances(n, size, overlap, k - 1);
    }
  }

  /** The loop ends exactly when one chunk holds everything or the overlap is below the chunk size. */
  lemma HaltsExactlyWhen(n: nat, size: int, overlap: int)
    requires 1 <= size
    ensures Halts(n, size, overlap) <==> n <= size || overlap < size
  {
    if n <= size {
      assert StartOf(n, size, overlap, 0) == Some(0);
      assert StartOf(n, size, overlap, 1) == None;
    } else if overlap < size {
      AlwaysAdvances(n, size, overlap, n);
      assert StartOf(n, size, overlap, n + 1) == None;
    } else {
      forall k: nat ensures StartOf(n, size, overlap, k).Some? {
        NeverAdvances(n, size, overlap, k);
      }
    }
  }

  /** What the routes accept for a knowledge base. */
  predicate Accepted(size: int, overlap: int) {
    100 <= size <= 2000 && 0 <= overlap <= 200
  }

  /** An accepted chunk size ends with every accepted overlap on every text exactly when it is above 200. */
  lemma AcceptedSizeHaltsExactlyWhen(size: int)
    requires Accepted(size, 0)
    ensures (forall n: nat, overlap: int :: Accepted(size, overlap) ==> Halts(n, size, overlap)) <==> size > 200
  {
    forall n: nat, overlap: int ensures Halts(n, size, overlap) <==> n <= size || overlap < size {
      HaltsExactlyWhen(n, size, overlap);
    }
    if size <= 200 {
      assert Accepted(size, 200) && !Halts(size + 1, size, 200);
    }
  }
}
