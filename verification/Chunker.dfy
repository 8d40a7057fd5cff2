/** Overlapping token windows (app/ingestion/chunker.py). */
module Chunker {
  import opened Arithmetic

  type Token = int

  /** `render` decodes a token slice and strips the text; the tokenizer itself is not modelled. */
  datatype Tokenizer = Tokenizer(isBlank: string -> bool, encode: string -> seq<Token>, render: seq<Token> -> string)

  datatype Chunk = Chunk(content: string, chunkIndex: nat, tokenCount: nat, metadata: map<string, string>)

  datatype Config = Config(chunkSize: nat, overlap: nat) {
    /** The next window starts after the current one. */
    predicate Valid() { overlap < chunkSize }

    /** The loop ends on a text of `total` tokens; otherwise it takes the first window for ever. */
    predicate Ends(total: nat) { overlap == chunkSize ==> chunkSize < 10 || total <= chunkSize }

    function Stride(): (s: nat)
      requires Valid()
      ensures s > 0
    {
      chunkSize - overlap
    }

    /** A trailing window shorter than this is dropped. */
    function Tiny(): nat { Max(10, chunkSize / 10) }

    /** Tokens that must lie at or after a start for a window other than the first to be kept there. */
    function Need(): nat { Max(overlap + 1, Tiny()) }
  }

  // ---------------------------------------------------------------- closed forms

  /** Python's `s[lo:hi]`: a negative bound counts from the end. */
  function PySlice(s: seq<Token>, lo: int, hi: int): seq<Token> {
    var a, b := Clip(lo, |s|), Clip(hi, |s|);
    if a <= b then s[a..b] else []
  }

  function Clip(bound: int, total: nat): (r: nat)
    ensures r <= total
  {
    if bound < 0 then Max(bound + total, 0) else Min(bound, total)
  }

  /** Where window i starts: i strides into the text, before it if the overlap exceeds the window. */
  function Start(c: Config, i: nat): (start: int)
    ensures c.Valid() ==> start >= 0
  {
    if i == 0 then 0 else Start(c, i - 1) + c.chunkSize - c.overlap
  }

  lemma {:induction false} StartIs(c: Config, i: nat)
    requires c.Valid()
    ensures Start(c, i) == i * c.Stride()
  {
    if i > 0 {
      StartIs(c, i - 1);
    }
  }

  lemma {:induction false} StartGrows(c: Config, i: nat, j: nat)
    requires c.Valid() && i <= j
    ensures Start(c, i) <= Start(c, j)
  {
    if i < j {
      StartGrows(c, i, j - 1);
    }
  }

  function Window(tokens: seq<Token>, c: Config, i: nat): seq<Token> {
    PySlice(tokens, Start(c, i), Min(Start(c, i) + c.chunkSize, |tokens|))
  }

  /** How many whole strides fit into `room`. */
  function Strides(room: nat, c: Config): nat
    requires c.Valid()
  {
    if room < c.Stride() then 0 else 1 + Strides(room - c.Stride(), c)
  }

  /** Strides of the length by which windows move back when the overlap exceeds them. */
  function Mirror(c: Config): (m: Config)
    requires c.overlap > c.chunkSize
    ensures m.Valid()
  {
    Config(c.overlap - c.chunkSize, 0)
  }

  function Count(total: nat, c: Config): nat {
    if total == 0 then 0
    else if c.Valid() then
      if c.chunkSize < 10 || total < c.Need() then 1 else 1 + Strides(total - c.Need(), c)
    else if c.chunkSize < 10 || total <= c.chunkSize || c.overlap <= 2 * c.chunkSize then 1
    else 1 + Strides(total + c.chunkSize - c.Tiny(), Mirror(c))
  }

  /** How many leading tokens the first `n` windows cover together. */
  function Covered(total: nat, c: Config, n: nat): nat
    requires c.Valid()
  {
    if n == 0 then 0 else Min(Start(c, n - 1) + c.chunkSize, total)
  }

  function Uncovered(total: nat, c: Config): nat
    requires c.Valid()
  {
    total - Covered(total, c, Count(total, c))
  }

  function ChunkAt(tk: Tokenizer, tokens: seq<Token>, c: Config, metadata: map<string, string>, i: nat): Chunk
  {
    var w := Window(tokens, c, i);
    Chunk(tk.render(w), i, |w|, metadata)
  }

  function ChunksUpTo(tk: Tokenizer, tokens: seq<Token>, c: Config, metadata: map<string, string>, n: nat): seq<Chunk>
  {
    if n == 0 then [] else ChunksUpTo(tk, tokens, c, metadata, n - 1) + [ChunkAt(tk, tokens, c, metadata, n - 1)]
  }

  lemma {:induction false} ChunksUpToAt(tk: Tokenizer, tokens: seq<Token>, c: Config,
                                       metadata: map<string, string>, n: nat)
    ensures |ChunksUpTo(tk, tokens, c, metadata, n)| == n
    ensures forall i :: 0 <= i < n ==> ChunksUpTo(tk, tokens, c, metadata, n)[i] == ChunkAt(tk, tokens, c, metadata, i)
  {
    if n > 0 {
      ChunksUpToAt(tk, tokens, c, metadata, n - 1);
    }
  }

  function Chunks(tk: Tokenizer, text: string, c: Config, metadata: map<string, string>): seq<Chunk>
  {
    var tokens := tk.encode(text);
    if tk.isBlank(text) then []
    else ChunksUpTo(tk, tokens, c, metadata, Count(|tokens|, c))
  }

  lemma {:induction false} StridesIs(room: nat, c: Config, q: nat)
    requires c.Valid() && Start(c, q) <= room < Start(c, q + 1)
    ensures Strides(room, c) == q
  {
    if q > 0 {
      StartGrows(c, 1, q);
      StridesIs(room - c.Stride(), c, q - 1);
    }
  }

  lemma {:induction false} StridesFit(room: nat, c: Config)
    requires c.Valid()
    ensures Start(c, Strides(room, c)) <= room < Start(c, Strides(room, c) + 1)
  {
    if room >= c.Stride() {
      StridesFit(room - c.Stride(), c);
    }
  }

  /** The number of chunks in closed form. */
  lemma CountClosedForm(total: nat, c: Config)
    ensures var tiny := if c.chunkSize / 10 > 10 then c.chunkSize / 10 else 10;
      var need := if c.overlap + 1 > tiny then c.overlap + 1 else tiny;
      Count(total, c) ==
        if total == 0 then 0
        else if c.overlap < c.chunkSize then
          if c.chunkSize < 10 || total < need then 1 else 1 + (total - need) / (c.chunkSize - c.overlap)
        else if c.chunkSize < 10 || total <= c.chunkSize || c.overlap <= 2 * c.chunkSize then 1
        else 1 + (total + c.chunkSize - tiny) / (c.overlap - c.chunkSize)
  {
    if c.Valid() && total >= c.Need() {
      StridesQuotient(total - c.Need(), c);
    } else if c.overlap > c.chunkSize >= 10 {
      StridesQuotient(total + c.chunkSize - c.Tiny(), Mirror(c));
    }
  }

  lemma StridesQuotient(room: nat, c: Config)
    requires c.Valid()
    ensures Strides(room, c) == room / c.Stride()
  {
    StridesFit(room, c);
    StartIs(c, Strides(room, c));
    StartIs(c, Strides(room, c) + 1);
    Quotient(room, c.Stride(), Strides(room, c));
  }

  lemma Product(a: int, b: int, s: nat)
    ensures a <= b ==> a * s <= b * s
  {
    if a <= b {
      assert b * s == a * s + (b - a) * s;
    }
  }

  lemma Quotient(a: nat, s: nat, q: nat)
    requires s > 0 && q * s <= a < (q + 1) * s
    ensures a / s == q
  {
    var k := a / s;
    assert k * s <= a < (k + 1) * s;
    Product(k + 1, q, s);
    Product(q + 1, k, s);
  }

  /** Window n - 1 is kept and window n is not. */
  lemma CountIs(total: nat, c: Config, n: nat)
    requires c.Valid() && c.chunkSize >= 10 && 1 <= n
    requires total > 0 && (n == 1 || total >= Start(c, n - 1) + c.Need())
    requires total < Start(c, n) + c.Need()
    ensures Count(total, c) == n
  {
    if total >= c.Need() {
      StridesIs(total - c.Need(), c, n - 1);
    }
  }

  lemma CountBounds(total: nat, c: Config)
    requires c.Valid() && c.chunkSize >= 10 && total > 0
    ensures var n := Count(total, c);
      n >= 1 && (n == 1 || total >= Start(c, n - 1) + c.Need()) && total < Start(c, n) + c.Need()
  {
    if total >= c.Need() {
      StridesFit(total - c.Need(), c);
    }
  }

  // ---------------------------------------------------------------- the loop

  /** The first `n` windows were kept and the text goes on after them. */
  ghost predicate Kept(total: nat, c: Config, n: nat) {
    && n <= Count(total, c) && Start(c, n) < total
    && (n > 0 ==> Start(c, n - 1) + c.chunkSize < total)
    && (n > 0 && !c.Valid() ==> Start(c, n) <= 0 && c.chunkSize < total)
  }

  /** The loop's test for a tiny trailing window. */
  predicate Dropped(total: nat, c: Config, n: nat) {
    Length(total, c, n) < c.Tiny() && n > 0
  }

  /** The length of window n. */
  function Length(total: nat, c: Config, n: nat): int {
    Max(Clip(Min(Start(c, n) + c.chunkSize, total), total) - Clip(Start(c, n), total), 0)
  }

  /** What gets smaller from window to window. */
  function Left(total: nat, c: Config, n: nat): int {
    if c.Valid() then total - Start(c, n)
    else if n == 0 then c.overlap + total + 1
    else Max(Start(c, n) + c.chunkSize + total, 0)
  }

  lemma NextWindow(total: nat, c: Config, n: nat)
    requires c.Ends(total) && Kept(total, c, n)
    ensures Dropped(total, c, n) ==> Count(total, c) == n
    ensures !Dropped(total, c, n) && Start(c, n) + c.chunkSize >= total ==> Count(total, c) == n + 1
    ensures !Dropped(total, c, n) && Start(c, n) + c.chunkSize < total ==>
      Start(c, n + 1) < total && Kept(total, c, n + 1) && 0 <= Left(total, c, n + 1) < Left(total, c, n)
  {
    if c.Valid() {
      NextForward(total, c, n);
    } else if n > 0 {
      NextBackward(total, c, n);
    }
  }

  lemma NextForward(total: nat, c: Config, n: nat)
    requires c.Valid() && Kept(total, c, n)
    ensures Dropped(total, c, n) ==> Count(total, c) == n
    ensures !Dropped(total, c, n) && Start(c, n) + c.chunkSize >= total ==> Count(total, c) == n + 1
    ensures !Dropped(total, c, n) && Start(c, n) + c.chunkSize < total ==> Kept(total, c, n + 1)
  {
    hide Length, Clip;
    ForwardLength(total, c, n);
    StartStep(c, n);
    if n > 0 {
      StartStep(c, n - 1);
    }
    if c.chunkSize >= 10 && total >= c.Need() {
      StridesReach(total - c.Need(), c, n);
      StridesReach(total - c.Need(), c, n + 1);
    }
  }

  lemma ForwardLength(total: nat, c: Config, n: nat)
    requires c.Valid() && Start(c, n) < total
    ensures Length(total, c, n) == Min(c.chunkSize, total - Start(c, n))
  {
  }

  lemma {:induction false} MirrorStart(c: Config, i: nat)
    requires c.overlap > c.chunkSize
    ensures Start(Mirror(c), i) == -Start(c, i)
  {
    if i > 0 {
      MirrorStart(c, i - 1);
    }
  }

  /** A window before the text is the part that Python counts from the end. */
  lemma BackwardLength(total: nat, c: Config, n: nat)
    requires c.chunkSize < total && c.overlap > c.chunkSize && n > 0
    ensures var back := -Start(c, n);
      back >= c.overlap - c.chunkSize
      && Length(total, c, n) == if back <= c.chunkSize then 0 else Max(Min(c.chunkSize, total + c.chunkSize - back), 0)
  {
    StartGrows(Mirror(c), 1, n);
    MirrorStart(c, 1);
    MirrorStart(c, n);
  }

  lemma NextBackward(total: nat, c: Config, n: nat)
    requires !c.Valid() && c.Ends(total) && Kept(total, c, n) && n > 0
    ensures if Dropped(total, c, n) then Count(total, c) == n
            else Kept(total, c, n + 1) && Start(c, n) + c.chunkSize + total > 0 && c.overlap > c.chunkSize
  {
    if c.overlap == c.chunkSize {
      Stays(c, n);
    } else {
      BackwardLength(total, c, n);
      MirrorStart(c, n);
      MirrorStart(c, n + 1);
      if c.chunkSize >= 10 && c.overlap > 2 * c.chunkSize {
        StridesReach(total + c.chunkSize - c.Tiny(), Mirror(c), n);
      }
    }
  }

  lemma StridesReach(room: nat, c: Config, n: nat)
    requires c.Valid()
    ensures Start(c, n) <= room <==> n <= Strides(room, c)
  {
    StridesFit(room, c);
    if n <= Strides(room, c) {
      StartGrows(c, n, Strides(room, c));
    } else {
      StartGrows(c, Strides(room, c) + 1, n);
    }
  }

  /** Without a stride every window is the first. */
  lemma {:induction false} Stays(c: Config, n: nat)
    requires c.overlap == c.chunkSize
    ensures Start(c, n) == 0
  {
    if n > 0 {
      Stays(c, n - 1);
    }
  }

  method ChunkText(tk: Tokenizer, text: string, c: Config, metadata: map<string, string>) returns (chunks: seq<Chunk>)
    requires !tk.isBlank(text) ==> c.Ends(|tk.encode(text)|)
    ensures chunks == Chunks(tk, text, c, metadata)
  {
    if tk.isBlank(text) {
      return [];
    }
    var allTokens := tk.encode(text);
    if |allTokens| == 0 {
      return [];
    }
    chunks := Windows(tk, allTokens, c, metadata);
    ChunksUpToAt(tk, allTokens, c, metadata, |chunks|);
  }

  lemma WindowLength(tokens: seq<Token>, c: Config, n: nat)
    ensures |Window(tokens, c, n)| == Length(|tokens|, c, n)
  {
  }

  lemma FirstWindow(total: nat, c: Config)
    requires total > 0
    ensures Kept(total, c, 0)
  {
  }

  lemma StartStep(c: Config, n: nat)
    ensures Start(c, n + 1) == Start(c, n) + c.chunkSize - c.overlap
  {
  }

  /** The loop over the token list. */
  method Windows(tk: Tokenizer, tokens: seq<Token>, c: Config, metadata: map<string, string>)
    returns (chunks: seq<Chunk>)
    requires c.Ends(|tokens|) && |tokens| > 0
    ensures |chunks| == Count(|tokens|, c)
    ensures forall i :: 0 <= i < |chunks| ==> chunks[i] == ChunkAt(tk, tokens, c, metadata, i)
  {
    hide Kept, Length, Count, PySlice, Left;
    var total := |tokens|;
    chunks := [];
    var start := 0;
    FirstWindow(total, c);
    while start < total
      invariant start == Start(c, |chunks|)
      invariant start < total && Kept(total, c, |chunks|)
      invariant forall i :: 0 <= i < |chunks| ==> chunks[i] == ChunkAt(tk, tokens, c, metadata, i)
      decreases Left(total, c, |chunks|)
    {
      NextWindow(total, c, |chunks|);
      WindowLength(tokens, c, |chunks|);
      StartStep(c, |chunks|);
      var end := Min(start + c.chunkSize, total);
      var tokenSlice := PySlice(tokens, start, end);
      if |tokenSlice| < c.Tiny() && chunks != [] {
        break;
      }
      chunks := chunks + [Chunk(tk.render(tokenSlice), |chunks|, |tokenSlice|, metadata)];
      if end == total {
        break;
      }
      start := end - c.overlap;
    }
  }

  // ---------------------------------------------------------------- when the loop ends

  /** The loop before a pass: where the next window starts and how many were kept. */
  datatype Pass = Going(start: int, kept: nat) | Over

  function Next(total: nat, c: Config, p: Pass): Pass {
    if p.Over? || p.start >= total then Over
    else
      var end := Min(p.start + c.chunkSize, total);
      var length := Max(Clip(end, total) - Clip(p.start, total), 0);
      if (length < c.Tiny() && p.kept > 0) || end == total then Over else Going(end - c.overlap, p.kept + 1)
  }

  function Passes(total: nat, c: Config, p: Pass, k: nat): Pass
    decreases k
  {
    if k == 0 then p else Passes(total, c, Next(total, c, p), k - 1)
  }

  lemma {:induction false} LoopEnds(total: nat, c: Config, n: nat) returns (k: nat)
    requires c.Ends(total) && Start(c, n) < total && Kept(total, c, n)
    ensures Passes(total, c, Going(Start(c, n), n), k) == Over
    decreases Left(total, c, n)
  {
    hide Kept, Left;
    NextWindow(total, c, n);
    StartStep(c, n);
    if Dropped(total, c, n) || Start(c, n) + c.chunkSize >= total {
      k := 1;
      assert Passes(total, c, Over, 0) == Over;
    } else {
      var more := LoopEnds(total, c, n + 1);
      k := more + 1;
    }
  }

  lemma {:induction false} LoopRepeats(total: nat, c: Config, n: nat, k: nat)
    requires !c.Ends(total)
    ensures Passes(total, c, Going(0, n), k) == Going(0, n + k)
    decreases k
  {
    if k > 0 {
      LoopRepeats(total, c, n + 1, k - 1);
    }
  }

  /** The loop ends unless the overlap is a whole window of ten tokens or more and the text
      is longer than a window; then it takes the first window again and again. */
  lemma LoopEndsIff(total: nat, c: Config)
    ensures (exists k :: Passes(total, c, Going(0, 0), k) == Over) <==> c.Ends(total)
  {
    if c.Ends(total) {
      if total == 0 {
        assert Next(total, c, Going(0, 0)) == Over;
        assert Passes(total, c, Going(0, 0), 1) == Passes(total, c, Over, 0);
      } else {
        FirstWindow(total, c);
        var k := LoopEnds(total, c, 0);
      }
    } else {
      forall k ensures Passes(total, c, Going(0, 0), k) != Over {
        LoopRepeats(total, c, 0, k);
      }
    }
  }

  /** If the overlap exceeds the window, every kept window after the first starts `back` tokens
      before the text, which Python counts from its end: they walk through the text backwards. */
  lemma BackwardWindows(tokens: seq<Token>, c: Config, i: nat)
    requires c.overlap > c.chunkSize && 0 < i < Count(|tokens|, c)
    ensures var back := i * (c.overlap - c.chunkSize);
      && c.chunkSize < back <= |tokens| + c.chunkSize - c.Tiny()
      && Window(tokens, c, i) == tokens[Max(|tokens| - back, 0)..|tokens| + c.chunkSize - back]
      && |Window(tokens, c, i)| >= c.Tiny()
  {
    var total, m := |tokens|, Mirror(c);
    StridesReach(total + c.chunkSize - c.Tiny(), m, i);
    MirrorStart(c, i);
    StartIs(m, i);
    StartGrows(m, 1, i);
    assert Start(m, 1) == m.Stride();
    WindowLength(tokens, c, i);
    BackwardLength(total, c, i);
  }

  // ---------------------------------------------------------------- what the chunks hold

  /** A text has no chunk exactly when it is blank or has no tokens. */
  lemma NoChunksIff(tk: Tokenizer, text: string, c: Config, metadata: map<string, string>)
    ensures Chunks(tk, text, c, metadata) == [] <==> tk.isBlank(text) || tk.encode(text) == []
  {
    ChunksUpToAt(tk, tk.encode(text), c, metadata, Count(|tk.encode(text)|, c));
    CountClosedForm(|tk.encode(text)|, c);
  }

  lemma ChunkCounted(tk: Tokenizer, text: string, c: Config, metadata: map<string, string>, i: nat)
    requires i < |Chunks(tk, text, c, metadata)|
    ensures !tk.isBlank(text) && |Chunks(tk, text, c, metadata)| == Count(|tk.encode(text)|, c)
    ensures Chunks(tk, text, c, metadata)[i] == ChunkAt(tk, tk.encode(text), c, metadata, i)
  {
    hide ChunkAt, Count;
    ChunksUpToAt(tk, tk.encode(text), c, metadata, Count(|tk.encode(text)|, c));
  }

  /** Chunk i holds the text of the tokens from i strides on, at most a chunk size of them, its
      number, how many they are, and the metadata passed. */
  lemma ChunkIs(tk: Tokenizer, text: string, c: Config, metadata: map<string, string>, i: nat, lo: nat, hi: nat)
    requires c.overlap < c.chunkSize && i < |Chunks(tk, text, c, metadata)| && lo == i * (c.chunkSize - c.overlap)
    requires hi == if lo + c.chunkSize < |tk.encode(text)| then lo + c.chunkSize else |tk.encode(text)|
    ensures lo < hi <= |tk.encode(text)|
    ensures Chunks(tk, text, c, metadata)[i] == Chunk(tk.render(tk.encode(text)[lo..hi]), i, hi - lo, metadata)
  {
    hide Chunks, Count, Window;
    ChunkCounted(tk, text, c, metadata, i);
    StartIs(c, i);
    WindowIsSlice(tk.encode(text), c, i);
  }

  /** With an overlap of a window or more, the first chunk is as ever and every later one holds
      the tokens that many strides back from the start of the text, counted from its end. */
  lemma BackwardChunkIs(tk: Tokenizer, text: string, c: Config, metadata: map<string, string>, i: nat, lo: nat, hi: nat)
    requires c.overlap >= c.chunkSize && i < |Chunks(tk, text, c, metadata)|
    requires var total, back := |tk.encode(text)|, i * (c.overlap - c.chunkSize);
      && lo == (if i == 0 || back > total then 0 else total - back)
      && hi == if i > 0 then total + c.chunkSize - back else if c.chunkSize < total then c.chunkSize else total
    ensures lo <= hi <= |tk.encode(text)|
    ensures Chunks(tk, text, c, metadata)[i] == Chunk(tk.render(tk.encode(text)[lo..hi]), i, hi - lo, metadata)
  {
    hide Chunks, Count;
    ChunkCounted(tk, text, c, metadata, i);
    CountClosedForm(|tk.encode(text)|, c);
    if i > 0 {
      hide Window;
      BackwardWindows(tk.encode(text), c, i);
    }
  }

  // ---------------------------------------------------------------- coverage and reconstruction

  /** Chunk i is exactly the slice of at most `chunkSize` tokens that starts at i strides. */
  lemma WindowIsSlice(tokens: seq<Token>, c: Config, i: nat)
    requires c.Valid() && i < Count(|tokens|, c)
    ensures Start(c, i) < |tokens|
    ensures Window(tokens, c, i) == tokens[Start(c, i)..Min(Start(c, i) + c.chunkSize, |tokens|)]
    ensures i > 0 ==> Start(c, i - 1) + c.chunkSize < |tokens| && |Window(tokens, c, i)| >= c.Need()
  {
    var total, n := |tokens|, Count(|tokens|, c);
    if i > 0 {
      CountBounds(total, c);
      StartGrows(c, i, n - 1);
    }
  }

  /** Chunk 0 followed by every later chunk without its first `overlap` tokens. */
  function Rebuild(tokens: seq<Token>, c: Config, n: nat): seq<Token>
    requires c.Valid() && n <= Count(|tokens|, c)
  {
    if n == 0 then []
    else if n == 1 then Window(tokens, c, 0)
    else
      WindowIsSlice(tokens, c, n - 1);
      Rebuild(tokens, c, n - 1) + Window(tokens, c, n - 1)[c.overlap..]
  }

  function TokenSum(chunks: seq<Chunk>): nat {
    if chunks == [] then 0 else TokenSum(chunks[..|chunks| - 1]) + chunks[|chunks| - 1].tokenCount
  }

  /** Window n - 1 starts `overlap` tokens before the end of what the earlier ones cover. */
  lemma WindowEdges(tokens: seq<Token>, c: Config, n: nat)
    requires c.Valid() && 0 < n <= Count(|tokens|, c)
    ensures Start(c, n - 1) < Covered(|tokens|, c, n) <= |tokens|
    ensures Window(tokens, c, n - 1) == tokens[Start(c, n - 1)..Covered(|tokens|, c, n)]
    ensures n > 1 ==> Start(c, n - 1) + c.overlap == Covered(|tokens|, c, n - 1) <= Covered(|tokens|, c, n)
  {
    WindowIsSlice(tokens, c, n - 1);
  }

  lemma Glue(s: seq<Token>, lo: nat, mid: nat, hi: nat)
    requires lo <= mid <= hi <= |s|
    ensures s[..mid] + s[lo..hi][mid - lo..] == s[..hi]
  {
  }

  lemma {:induction false} RebuildsPrefix(tokens: seq<Token>, c: Config, n: nat)
    requires c.Valid() && n <= Count(|tokens|, c)
    ensures Covered(|tokens|, c, n) <= |tokens|
    ensures Rebuild(tokens, c, n) == tokens[..Covered(|tokens|, c, n)]
  {
    if n > 0 {
      WindowEdges(tokens, c, n);
      if n > 1 {
        RebuildsPrefix(tokens, c, n - 1);
        Glue(tokens, Start(c, n - 1), Covered(|tokens|, c, n - 1), Covered(|tokens|, c, n));
      }
    }
  }

  lemma {:induction false} TokenSumUpTo(tokens: seq<Token>, c: Config, chunks: seq<Chunk>)
    requires c.Valid() && |chunks| <= Count(|tokens|, c)
    requires forall i :: 0 <= i < |chunks| ==> chunks[i].tokenCount == |Window(tokens, c, i)|
    ensures TokenSum(chunks) == Covered(|tokens|, c, |chunks|) + Repeated(c, |chunks|)
  {
    var n := |chunks|;
    if n > 0 {
      TokenSumUpTo(tokens, c, chunks[..n - 1]);
      WindowEdges(tokens, c, n);
    }
  }

  /** The tokens that n chunks hold twice. */
  function Repeated(c: Config, n: nat): nat {
    if n <= 1 then 0 else Repeated(c, n - 1) + c.overlap
  }

  lemma {:induction false} RepeatedIs(c: Config, n: nat)
    requires n > 0
    ensures Repeated(c, n) == (n - 1) * c.overlap
  {
    if n > 1 {
      RepeatedIs(c, n - 1);
    }
  }

  /** The chunks of a non-blank text rebuild its covered prefix, and their token
      counts exceed that prefix by one overlap per chunk after the first. */
  lemma ChunksRebuildText(tk: Tokenizer, text: string, c: Config, metadata: map<string, string>)
    requires c.Valid() && !tk.isBlank(text)
    ensures var tokens, chunks := tk.encode(text), Chunks(tk, text, c, metadata);
      && |chunks| == Count(|tokens|, c)
      && 0 <= Uncovered(|tokens|, c)
      && Rebuild(tokens, c, Count(|tokens|, c)) == tokens[..|tokens| - Uncovered(|tokens|, c)]
      && TokenSum(chunks) == |tokens| - Uncovered(|tokens|, c) + Repeated(c, |chunks|)
  {
    var tokens := tk.encode(text);
    var n := Count(|tokens|, c);
    ChunksUpToAt(tk, tokens, c, metadata, n);
    RebuildsPrefix(tokens, c, n);
    TokenSumUpTo(tokens, c, ChunksUpTo(tk, tokens, c, metadata, n));
  }

  /** The uncovered tokens are those that no window holds, all at the end of the text. */
  lemma UncoveredMeans(total: nat, c: Config, p: nat)
    requires c.Valid() && p < total
    ensures 0 <= Uncovered(total, c) <= total
    ensures (exists i :: 0 <= i < Count(total, c) && Start(c, i) <= p < Start(c, i) + c.chunkSize) <==>
      p < total - Uncovered(total, c)
  {
    CountClosedForm(total, c);
    var n := Count(total, c);
    if p < total - Uncovered(total, c) {
      var i := Holding(c, p, n);
    }
    forall i | 0 <= i < n && Start(c, i) <= p < Start(c, i) + c.chunkSize
      ensures p < total - Uncovered(total, c)
    {
      StartGrows(c, i, n - 1);
    }
  }

  /** One of the first n windows holds a token before the end of the last of them. */
  lemma {:induction false} Holding(c: Config, p: nat, n: nat) returns (i: nat)
    requires c.Valid() && n > 0 && p < Start(c, n - 1) + c.chunkSize
    ensures i < n && Start(c, i) <= p < Start(c, i) + c.chunkSize
  {
    if Start(c, n - 1) <= p {
      i := n - 1;
    } else {
      i := Holding(c, p, n - 1);
    }
  }

  /** What is lost is less than the shortest chunk kept minus the overlap. */
  lemma LossBound(total: nat, c: Config)
    requires c.Valid() && c.chunkSize >= 10
    ensures var lost := Uncovered(total, c);
      lost == 0 || lost < 10 - c.overlap || lost < c.chunkSize / 10 - c.overlap
  {
    if total > 0 {
      CountBounds(total, c);
    }
  }

  /** The bound is reached: some text loses exactly one token less than it. */
  lemma LossIsReached(c: Config)
    requires c.Valid() && c.chunkSize >= 10 && (c.overlap + 1 < 10 || c.overlap + 1 < c.chunkSize / 10)
    ensures var tiny := if c.chunkSize / 10 > 10 then c.chunkSize / 10 else 10;
      Uncovered(c.chunkSize + tiny - c.overlap - 1, c) == tiny - c.overlap - 1
  {
    CountIs(c.chunkSize + c.Tiny() - c.overlap - 1, c, 1);
  }

  /** No text loses a token, whatever its length, exactly when the overlap reaches the
      shortest chunk kept; the defaults of 512 and 64 do. */
  lemma LosslessIff(c: Config)
    requires c.Valid()
    ensures (forall total: nat :: Uncovered(total, c) == 0) <==>
      c.overlap + 1 >= 10 && c.overlap + 1 >= c.chunkSize / 10
    ensures forall total: nat :: Uncovered(total, Config(512, 64)) == 0
  {
    forall total: nat, d: Config | d.Valid() && d.overlap + 1 >= d.Tiny()
      ensures Uncovered(total, d) == 0
    {
      LossBound(total, d);
    }
    if c.overlap + 1 < c.Tiny() {
      if c.chunkSize >= 10 {
        LossIsReached(c);
      } else {
        assert Start(c, 0) == 0 && Uncovered(c.chunkSize + 1, c) == 1;
      }
    }
  }

  /** Below ten tokens per chunk every trailing window is dropped: one chunk, whatever the text. */
  lemma SmallChunksKeepOnlyTheFirst(tk: Tokenizer, text: string, c: Config, metadata: map<string, string>)
    requires c.chunkSize < 10 && !tk.isBlank(text) && tk.encode(text) != []
    ensures var tokens := tk.encode(text);
      var n := if c.chunkSize < |tokens| then c.chunkSize else |tokens|;
      Chunks(tk, text, c, metadata) == [Chunk(tk.render(tokens[..n]), 0, n, metadata)]
    ensures c.Valid() ==> Uncovered(|tk.encode(text)|, c) == Max(0, |tk.encode(text)| - c.chunkSize)
  {
    ChunksUpToAt(tk, tk.encode(text), c, metadata, 1);
  }
}
