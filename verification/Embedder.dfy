/** Batched, retrying embedding clients (app/ingestion/embedder.py).

    The remote service is a function from the number of the call and its input
    to a reply, so every sequence of failures and successes is covered. */
module Embedder {
  import opened Arithmetic

  type Vector = seq<real>

  /** One entry of a response, naming the input it belongs to. */
  datatype Item = Item(index: int, embedding: Vector)

  datatype Reply =
    | Data(items: seq<Item>)
    | RateLimited(error: string)
    | ApiFailure(error: string)
    | OtherFailure(error: string)
  {
    /** The two kinds of exception the OpenAI client catches. */
    predicate Retryable() { RateLimited? || ApiFailure? }
  }

  type Service = (nat, seq<string>) -> Reply

  /** `Exhausted` is the error raised after the loop. */
  datatype Outcome = Embedded(vectors: seq<Vector>) | Raised(error: string) | Exhausted

  const BATCH_SIZE := 100

  function Pow2(n: nat): nat { if n == 0 then 1 else 2 * Pow2(n - 1) }

  function EmbedAll(embed: string -> Vector, texts: seq<string>): seq<Vector> {
    seq(|texts|, i requires 0 <= i < |texts| => embed(texts[i]))
  }

  lemma EmbedAllAppend(embed: string -> Vector, a: seq<string>, b: seq<string>)
    ensures EmbedAll(embed, a + b) == EmbedAll(embed, a) + EmbedAll(embed, b)
  {
  }

  // ---------------------------------------------------------------- ordering a response

  function Insert(x: Item, sorted: seq<Item>): seq<Item> {
    if sorted == [] || x.index <= sorted[0].index then [x] + sorted else [sorted[0]] + Insert(x, sorted[1..])
  }

  /** Stable sort by index. */
  function SortByIndex(items: seq<Item>): seq<Item> {
    if items == [] then [] else Insert(items[0], SortByIndex(items[1..]))
  }

  function Vectors(items: seq<Item>): seq<Vector> {
    seq(|items|, i requires 0 <= i < |items| => items[i].embedding)
  }

  ghost predicate DistinctIndices(items: seq<Item>) {
    forall i, j :: 0 <= i < j < |items| ==> items[i].index != items[j].index
  }

  ghost predicate Increasing(items: seq<Item>) {
    forall i, j :: 0 <= i < j < |items| ==> items[i].index < items[j].index
  }

  /** The response holds one entry per text, in any order, each with the vector of the text it names. */
  ghost predicate Answers(items: seq<Item>, texts: seq<string>, embed: string -> Vector) {
    && |items| == |texts| && DistinctIndices(items)
    && forall x :: x in items ==> 0 <= x.index < |texts| && x.embedding == embed(texts[x.index])
  }

  lemma {:induction false} InsertKeeps(x: Item, sorted: seq<Item>)
    requires Increasing(sorted) && forall y :: y in sorted ==> y.index != x.index
    ensures Increasing(Insert(x, sorted)) && |Insert(x, sorted)| == |sorted| + 1
    ensures forall y :: y in Insert(x, sorted) <==> y == x || y in sorted
  {
    if sorted != [] && x.index > sorted[0].index {
      var rest := Insert(x, sorted[1..]);
      InsertKeeps(x, sorted[1..]);
      assert forall y :: y in sorted <==> y == sorted[0] || y in sorted[1..];
      hide Insert;
      FirstIsLeast(sorted[0], rest);
    }
  }

  lemma FirstIsLeast(first: Item, rest: seq<Item>)
    requires Increasing(rest) && forall y :: y in rest ==> first.index < y.index
    ensures Increasing([first] + rest)
    ensures forall y :: y in [first] + rest <==> y == first || y in rest
  {
    assert forall j :: 0 <= j < |rest| ==> rest[j] in rest;
  }

  lemma {:induction false} SortKeeps(items: seq<Item>)
    requires DistinctIndices(items)
    ensures Increasing(SortByIndex(items)) && |SortByIndex(items)| == |items|
    ensures forall y :: y in SortByIndex(items) <==> y in items
  {
    if items != [] {
      SortKeeps(items[1..]);
      assert forall y :: y in items <==> y == items[0] || y in items[1..];
      InsertKeeps(items[0], SortByIndex(items[1..]));
    }
  }

  lemma {:induction false} AtMin(items: seq<Item>, i: nat)
    requires Increasing(items) && i < |items| && items[0].index >= 0
    ensures items[i].index >= i
  {
    if i > 0 {
      AtMin(items, i - 1);
    }
  }

  lemma {:induction false} AtMost(items: seq<Item>, i: nat)
    requires Increasing(items) && i < |items| && items[|items| - 1].index < |items|
    ensures items[i].index <= i
    decreases |items| - i
  {
    if i < |items| - 1 {
      AtMost(items, i + 1);
    }
  }

  /** Sorting by index restores the input order, whatever the order of the response. */
  lemma OrderRestored(items: seq<Item>, texts: seq<string>, embed: string -> Vector)
    requires Answers(items, texts, embed)
    ensures Vectors(SortByIndex(items)) == EmbedAll(embed, texts)
  {
    hide SortByIndex;
    var sorted := SortByIndex(items);
    SortKeeps(items);
    forall i | 0 <= i < |texts| ensures sorted[i].embedding == embed(texts[i]) {
      assert sorted[i] in items && sorted[0] in items && sorted[|items| - 1] in items;
      AtMin(sorted, i);
      AtMost(sorted, i);
    }
  }

  /** The items that name one input, in their order. */
  function Naming(items: seq<Item>, index: int): seq<Item> {
    if items == [] then []
    else (if items[0].index == index then [items[0]] else []) + Naming(items[1..], index)
  }

  ghost predicate InOrder(items: seq<Item>) {
    forall i, j :: 0 <= i < j < |items| ==> items[i].index <= items[j].index
  }

  lemma {:induction false} InsertAdds(x: Item, sorted: seq<Item>)
    ensures multiset(Insert(x, sorted)) == multiset([x]) + multiset(sorted)
  {
    if sorted != [] && x.index > sorted[0].index {
      InsertAdds(x, sorted[1..]);
      assert sorted == [sorted[0]] + sorted[1..];
    }
  }

  lemma {:induction false} InsertSorts(x: Item, sorted: seq<Item>)
    requires InOrder(sorted)
    ensures InOrder(Insert(x, sorted))
    ensures var all := Insert(x, sorted);
      all != [] && (all[0] == x || (sorted != [] && all[0] == sorted[0]))
  {
    if sorted != [] && x.index > sorted[0].index {
      InsertSorts(x, sorted[1..]);
    }
  }

  lemma {:induction false} InsertIsStable(x: Item, sorted: seq<Item>, index: int)
    requires InOrder(sorted)
    ensures Naming(Insert(x, sorted), index) == (if x.index == index then [x] else []) + Naming(sorted, index)
    decreases |sorted|
  {
    if sorted == [] || x.index <= sorted[0].index {
      NamingFirst(x, sorted, index);
    } else {
      InsertIsStable(x, sorted[1..], index);
      NamingFirst(sorted[0], Insert(x, sorted[1..]), index);
      if x.index == index {
        assert [x] + Naming(sorted[1..], index) == [x] + Naming(sorted, index);
      }
    }
  }

  lemma NamingFirst(x: Item, rest: seq<Item>, index: int)
    ensures Naming([x] + rest, index) == (if x.index == index then [x] else []) + Naming(rest, index)
  {
    assert ([x] + rest)[1..] == rest;
  }

  /** Whatever a response holds, sorting keeps its items, puts their indices in order, and
      leaves items with the same index as they were. */
  lemma {:induction false} SortIsStable(items: seq<Item>, index: int)
    ensures var sorted := SortByIndex(items);
      multiset(sorted) == multiset(items) && InOrder(sorted) && Naming(sorted, index) == Naming(items, index)
  {
    if items != [] {
      var rest := SortByIndex(items[1..]);
      SortIsStable(items[1..], index);
      InsertAdds(items[0], rest);
      InsertSorts(items[0], rest);
      InsertIsStable(items[0], rest, index);
      assert items == [items[0]] + items[1..];
    }
  }

  // ---------------------------------------------------------------- retrying

  function Ask(service: Service, n: nat, texts: seq<string>): Reply { service(n, texts) }

  /** `k` calls from number `first` on: all but the last failed in a way that is
      retried, and the last ended the loop. */
  ghost predicate EndsAfter(service: Service, texts: seq<string>, first: nat, limit: nat, k: nat) {
    && 1 <= k <= limit
    && (forall n :: first <= n < first + k - 1 ==> Ask(service, n, texts).Retryable())
    && (k == limit || !Ask(service, first + k - 1, texts).Retryable())
  }

  function Result(reply: Reply): Outcome {
    if reply.Data? then Embedded(Vectors(SortByIndex(reply.items))) else Raised(reply.error)
  }

  /** The last of `calls` calls failed and its error is the outcome. */
  ghost predicate LastFailed(service: Service, calls: nat, texts: seq<string>, outcome: Outcome) {
    calls > 0 && !Ask(service, calls - 1, texts).Data? && outcome == Raised(Ask(service, calls - 1, texts).error)
  }

  /** What up to `limit` calls from number `first` on come to, and the number of the next call. */
  function Retry(service: Service, texts: seq<string>, first: nat, limit: nat): (Outcome, nat)
    decreases limit
  {
    if limit == 0 then (Exhausted, first)
    else
      var reply := Ask(service, first, texts);
      if reply.Retryable() && limit > 1 then Retry(service, texts, first + 1, limit - 1)
      else (Result(reply), first + 1)
  }

  /** A failed call that is retried is as good as none. */
  lemma {:induction false} RetryAgain(service: Service, texts: seq<string>, first: nat, limit: nat, k: nat)
    requires k < limit && forall n :: first <= n < first + k ==> Ask(service, n, texts).Retryable()
    ensures Retry(service, texts, first, limit) == Retry(service, texts, first + k, limit - k)
    decreases k
  {
    if k > 0 {
      RetryAgain(service, texts, first, limit, k - 1);
    }
  }

  /** Rate limits and API errors are retried; the first data wins, any other failure and the
      last of `limit` failures are raised, after that many calls. */
  lemma RetryOutcome(service: Service, texts: seq<string>, first: nat, limit: nat, k: nat)
    requires k < limit
    requires forall n :: first <= n < first + k ==>
      Ask(service, n, texts).RateLimited? || Ask(service, n, texts).ApiFailure?
    ensures var reply, outcome := Ask(service, first + k, texts), Retry(service, texts, first, limit);
      && (reply.Data? ==> outcome == (Embedded(Vectors(SortByIndex(reply.items))), first + k + 1))
      && (reply.OtherFailure? ==> outcome == (Raised(reply.error), first + k + 1))
      && (!reply.Data? && k + 1 == limit ==> outcome == (Raised(reply.error), first + k + 1))
  {
    RetryAgain(service, texts, first, limit, k);
  }

  /** The delays double: the base delays slept before k calls add up to 2^(k-1) - 1. */
  lemma {:induction false} PowerOfTwo(m: nat, n: nat)
    ensures Pow2(0) == 1 && Pow2(1) == 2 && Pow2(m + n) == Pow2(m) * Pow2(n)
    decreases m
  {
    if m > 0 {
      PowerOfTwo(m - 1, n);
      assert Pow2(m + n) == 2 * Pow2(m + n - 1);
    }
  }

  // ---------------------------------------------------------------- batching

  /** How many calls a list takes if none fails: one for each hundred texts begun. */
  function BatchCount(n: nat): nat { (n + 99) / 100 }

  /** The texts of one call: a hundred consecutive ones, fewer only at the end. */
  function BatchAt(texts: seq<string>, b: nat): seq<string>
    requires b < BatchCount(|texts|)
  {
    texts[b * 100..if b * 100 + 100 < |texts| then b * 100 + 100 else |texts|]
  }

  /** All batches in turn, up to the first that fails. */
  function Embedding(service: Service, texts: seq<string>, first: nat, limit: nat): (Outcome, nat)
    decreases |texts|
  {
    if texts == [] then (Embedded([]), first)
    else
      var n := Min(BATCH_SIZE, |texts|);
      var (head, next) := Retry(service, texts[..n], first, limit);
      if !head.Embedded? then (head, next)
      else
        var (tail, end) := Embedding(service, texts[n..], next, limit);
        (After(head.vectors, tail), end)
  }

  /** An outcome with vectors embedded before it. */
  function After(vectors: seq<Vector>, outcome: Outcome): Outcome {
    if outcome.Embedded? then Embedded(vectors + outcome.vectors) else outcome
  }

  /** Every response answers its request, whatever the order of its items. */
  ghost predicate Honest(service: Service, embed: string -> Vector) {
    forall n, batch :: Ask(service, n, batch).Data? ==> Answers(Ask(service, n, batch).items, batch, embed)
  }

  lemma {:induction false} RetryInOrder(service: Service, texts: seq<string>, first: nat, limit: nat,
                                       embed: string -> Vector)
    requires Honest(service, embed)
    ensures var outcome := Retry(service, texts, first, limit).0;
      outcome.Embedded? ==> outcome.vectors == EmbedAll(embed, texts)
    decreases limit
  {
    if limit > 0 {
      var reply := Ask(service, first, texts);
      if reply.Data? {
        OrderRestored(reply.items, texts, embed);
      } else if limit > 1 {
        RetryInOrder(service, texts, first + 1, limit - 1, embed);
      }
    }
  }

  /** One vector per text in input order, for every number of texts, every batch boundary
      and every order in which each response lists its items. */
  lemma {:induction false} EmbeddingInOrder(service: Service, texts: seq<string>, first: nat, limit: nat,
                                           embed: string -> Vector)
    requires Honest(service, embed)
    ensures var outcome := Embedding(service, texts, first, limit).0;
      outcome.Embedded? ==> outcome.vectors == EmbedAll(embed, texts)
    decreases |texts|
  {
    if texts != [] {
      var n := Min(BATCH_SIZE, |texts|);
      var (head, next) := Retry(service, texts[..n], first, limit);
      RetryInOrder(service, texts[..n], first, limit, embed);
      EmbeddingInOrder(service, texts[n..], next, limit, embed);
      EmbedAllAppend(embed, texts[..n], texts[n..]);
      assert texts == texts[..n] + texts[n..];
    }
  }

  /** If every call is answered, every text is embedded, with one call for each hundred texts begun. */
  lemma {:induction false} EmbeddingSucceeds(service: Service, texts: seq<string>, first: nat, limit: nat)
    requires limit > 0 && forall n, batch :: Ask(service, n, batch).Data?
    ensures Embedding(service, texts, first, limit).0.Embedded?
    ensures Embedding(service, texts, first, limit).1 == first + (|texts| + 99) / 100
    decreases |texts|
  {
    if texts != [] {
      var n := Min(BATCH_SIZE, |texts|);
      RetryOutcome(service, texts[..n], first, limit, 0);
      EmbeddingSucceeds(service, texts[n..], first + 1, limit);
    }
  }

  class OpenAIEmbedder {
    const service: Service
    var calls: nat   // calls made so far
    var slept: nat   // base delays slept so far

    constructor (service: Service)
      ensures this.service == service && calls == slept == 0
    {
      this.service := service;
      calls, slept := 0, 0;
    }

    /** `limit` attempts with a doubling delay; the raise after the loop is reached only without attempts. */
    method EmbedBatchWithRetry(texts: seq<string>, limit: nat) returns (outcome: Outcome)
      modifies this
      ensures (outcome, calls) == Retry(service, texts, old(calls), limit)
      ensures outcome.Exhausted? <==> limit == 0
      ensures limit == 0 ==> calls == old(calls) && slept == old(slept)
      ensures limit > 0 ==>
        var k := calls - old(calls);
        && k > 0 && EndsAfter(service, texts, old(calls), limit, k)
        && slept == old(slept) + Pow2(k - 1) - 1
        && outcome == Result(Ask(service, calls - 1, texts))
    {
      var delay := 1;
      for attempt := 1 to limit + 1
        invariant limit > 0 ==> attempt <= limit
        invariant calls == old(calls) + attempt - 1
        invariant delay == Pow2(attempt - 1) && slept == old(slept) + delay - 1
        invariant forall n :: old(calls) <= n < calls ==> Ask(service, n, texts).Retryable()
      {
        RetryAgain(service, texts, old(calls), limit, attempt - 1);
        var response := Ask(service, calls, texts);
        calls := calls + 1;
        if response.Data? {
          return Embedded(Vectors(SortByIndex(response.items)));
        }
        if !response.Retryable() || attempt == limit {
          return Raised(response.error);
        }
        slept := slept + delay;
        delay := delay * 2;
      }
      return Exhausted;
    }

    /** One vector per text in input order if every response answers its request, with between
        one call and `limit` calls for each hundred texts; otherwise the error is that of the
        last call, on one of the batches. */
    method EmbedMany(texts: seq<string>, limit: nat) returns (outcome: Outcome)
      modifies this
      ensures (outcome, calls) == Embedding(service, texts, old(calls), limit)
      ensures forall embed :: Honest(service, embed) && outcome.Embedded? ==> outcome.vectors == EmbedAll(embed, texts)
      ensures outcome.Embedded? ==> BatchCount(|texts|) <= calls - old(calls) <= BatchCount(|texts|) * limit
      ensures !outcome.Embedded? && limit > 0 ==>
        exists b: nat :: b < BatchCount(|texts|) && LastFailed(service, calls, BatchAt(texts, b), outcome)
    {
      forall embed | Honest(service, embed)
        ensures var out := Embedding(service, texts, calls, limit).0;
          out.Embedded? ==> out.vectors == EmbedAll(embed, texts)
      {
        EmbeddingInOrder(service, texts, calls, limit, embed);
      }
      if texts == [] {
        return Embedded([]);
      }
      hide Embedding, Retry, EmbedAll, Honest, Result, After;
      var allEmbeddings: seq<Vector> := [];
      var batchStart := 0;
      ghost var done: nat := 0;
      ghost var start := calls;
      NothingYet(service, texts, start, limit);
      while batchStart < |texts|
        invariant batchStart == done * BATCH_SIZE && done <= BatchCount(|texts|)
        invariant ToGo(service, texts, start, limit, allEmbeddings, Min(batchStart, |texts|), calls)
        invariant done <= calls - start <= done * limit
      {
        var batchEnd := Min(batchStart + BATCH_SIZE, |texts|);
        var batch := texts[batchStart..batchEnd];
        ghost var before := calls;
        var embeddings := EmbedBatchWithRetry(batch, limit);
        NextBatch(service, texts, start, limit, allEmbeddings, batchStart, before);
        if !embeddings.Embedded? {
          if limit > 0 {
            assert batch == BatchAt(texts, done);
            LastReply(service, calls, batch, embeddings);
          }
          return embeddings;
        }
        allEmbeddings := allEmbeddings + embeddings.vectors;
        batchStart := batchStart + BATCH_SIZE;
        assert (done + 1) * limit == done * limit + limit;
        done := done + 1;
      }
      NothingLeft(service, texts, start, limit, allEmbeddings, calls);
      return Embedded(allEmbeddings);
    }
  }

  lemma LastReply(service: Service, calls: nat, texts: seq<string>, outcome: Outcome)
    requires calls > 0 && outcome == Result(Ask(service, calls - 1, texts)) && !outcome.Embedded?
    ensures LastFailed(service, calls, texts, outcome)
  {
  }

  /** The first `done` texts are embedded and the next call is number `next`. */
  ghost predicate ToGo(service: Service, texts: seq<string>, first: nat, limit: nat,
                       vectors: seq<Vector>, done: nat, next: nat)
    requires done <= |texts|
  {
    var (rest, end) := Embedding(service, texts[done..], next, limit);
    Embedding(service, texts, first, limit) == (After(vectors, rest), end)
  }

  lemma NothingYet(service: Service, texts: seq<string>, first: nat, limit: nat)
    ensures ToGo(service, texts, first, limit, [], 0, first)
  {
    assert texts[0..] == texts;
    var (rest, end) := Embedding(service, texts, first, limit);
    assert After([], rest) == rest;
  }

  lemma NothingLeft(service: Service, texts: seq<string>, first: nat, limit: nat, vectors: seq<Vector>, next: nat)
    requires ToGo(service, texts, first, limit, vectors, |texts|, next)
    ensures Embedding(service, texts, first, limit) == (Embedded(vectors), next)
  {
    assert texts[|texts|..] == [];
    assert vectors + [] == vectors;
  }

  lemma NextBatch(service: Service, texts: seq<string>, first: nat, limit: nat,
                  vectors: seq<Vector>, done: nat, next: nat)
    requires done < |texts| && ToGo(service, texts, first, limit, vectors, done, next)
    ensures var end := Min(done + BATCH_SIZE, |texts|);
      var (outcome, calls) := Retry(service, texts[done..end], next, limit);
      if outcome.Embedded? then ToGo(service, texts, first, limit, vectors + outcome.vectors, end, calls)
      else Embedding(service, texts, first, limit) == (outcome, calls)
  {
    var rest, n := texts[done..], Min(BATCH_SIZE, |texts| - done);
    assert rest[..n] == texts[done..done + n] && rest[n..] == texts[done + n..];
    var (outcome, calls) := Retry(service, rest[..n], next, limit);
    if outcome.Embedded? {
      AfterTwice(vectors, outcome.vectors, Embedding(service, rest[n..], calls, limit).0);
    }
  }

  lemma AfterTwice(a: seq<Vector>, b: seq<Vector>, outcome: Outcome)
    ensures After(a, After(b, outcome)) == After(a + b, outcome)
  {
    if outcome.Embedded? {
      assert a + (b + outcome.vectors) == a + b + outcome.vectors;
    }
  }

  // ---------------------------------------------------------------- the local provider

  /** A reply of the local service: its list of embeddings, or any exception. */
  datatype LocalReply = Embeddings(vectors: seq<Vector>) | Failure(error: string) {
    /** Taking the first of an empty list raises, inside the same handler. */
    predicate Usable() { Embeddings? && vectors != [] }

    function Error(): string { if Failure? then error else "list index out of range" }
  }

  type LocalService = (nat, string) -> LocalReply

  function AskLocal(service: LocalService, n: nat, text: string): LocalReply { service(n, text) }

  ghost predicate LastLocalFailed(service: LocalService, calls: nat, text: string, outcome: Outcome) {
    && calls > 0 && !AskLocal(service, calls - 1, text).Usable()
    && outcome == Raised(AskLocal(service, calls - 1, text).Error())
  }

  function LocalResult(reply: LocalReply): Outcome {
    if reply.Usable() then Embedded([reply.vectors[0]]) else Raised(reply.Error())
  }

  function RetryLocal(service: LocalService, text: string, first: nat, limit: nat): (Outcome, nat)
    decreases limit
  {
    if limit == 0 then (Exhausted, first)
    else
      var reply := AskLocal(service, first, text);
      if !reply.Usable() && limit > 1 then RetryLocal(service, text, first + 1, limit - 1)
      else (LocalResult(reply), first + 1)
  }

  lemma {:induction false} RetryLocalAgain(service: LocalService, text: string, first: nat, limit: nat, k: nat)
    requires k < limit && forall n :: first <= n < first + k ==> !AskLocal(service, n, text).Usable()
    ensures RetryLocal(service, text, first, limit) == RetryLocal(service, text, first + k, limit - k)
    decreases k
  {
    if k > 0 {
      RetryLocalAgain(service, text, first, limit, k - 1);
    }
  }

  /** Every failure is retried, an empty list of embeddings being one; the first usable reply
      wins, and only the last of `limit` failures is raised. */
  lemma RetryLocalOutcome(service: LocalService, text: string, first: nat, limit: nat, k: nat)
    requires k < limit
    requires forall n :: first <= n < first + k ==>
      AskLocal(service, n, text).Failure? || AskLocal(service, n, text).vectors == []
    ensures match AskLocal(service, first + k, text)
      case Embeddings(vectors) =>
        if vectors != [] then RetryLocal(service, text, first, limit) == (Embedded(vectors[..1]), first + k + 1)
        else k + 1 == limit ==>
          RetryLocal(service, text, first, limit) == (Raised("list index out of range"), first + k + 1)
      case Failure(error) =>
        k + 1 == limit ==> RetryLocal(service, text, first, limit) == (Raised(error), first + k + 1)
  {
    RetryLocalAgain(service, text, first, limit, k);
    var reply := AskLocal(service, first + k, text);
    assert reply.Usable() ==> reply.vectors[..1] == [reply.vectors[0]];
  }

  /** One text after the other, up to the first that fails. */
  function EmbeddingLocal(service: LocalService, texts: seq<string>, first: nat, limit: nat): (Outcome, nat)
    decreases |texts|
  {
    if texts == [] then (Embedded([]), first)
    else
      var (head, next) := RetryLocal(service, texts[0], first, limit);
      if !head.Embedded? then (head, next)
      else
        var (tail, end) := EmbeddingLocal(service, texts[1..], next, limit);
        (After(head.vectors, tail), end)
  }

  ghost predicate HonestLocal(service: LocalService, embed: string -> Vector) {
    forall n, text :: AskLocal(service, n, text).Usable() ==> AskLocal(service, n, text).vectors[0] == embed(text)
  }

  lemma {:induction false} RetryLocalIs(service: LocalService, text: string, first: nat, limit: nat,
                                       embed: string -> Vector)
    requires HonestLocal(service, embed)
    ensures var outcome := RetryLocal(service, text, first, limit).0;
      outcome.Embedded? ==> outcome.vectors == [embed(text)]
    decreases limit
  {
    if limit > 1 {
      RetryLocalIs(service, text, first + 1, limit - 1, embed);
    }
  }

  lemma {:induction false} EmbeddingLocalInOrder(service: LocalService, texts: seq<string>, first: nat, limit: nat,
                                                embed: string -> Vector)
    requires HonestLocal(service, embed)
    ensures var outcome := EmbeddingLocal(service, texts, first, limit).0;
      outcome.Embedded? ==> outcome.vectors == EmbedAll(embed, texts)
    decreases |texts|
  {
    if texts != [] {
      var (head, next) := RetryLocal(service, texts[0], first, limit);
      RetryLocalIs(service, texts[0], first, limit, embed);
      EmbeddingLocalInOrder(service, texts[1..], next, limit, embed);
    }
  }

  lemma {:induction false} EmbeddingLocalSucceeds(service: LocalService, texts: seq<string>, first: nat, limit: nat)
    requires limit > 0 && forall n, text :: AskLocal(service, n, text).Usable()
    ensures EmbeddingLocal(service, texts, first, limit).0.Embedded?
    ensures EmbeddingLocal(service, texts, first, limit).1 == first + |texts|
    decreases |texts|
  {
    if texts != [] {
      EmbeddingLocalSucceeds(service, texts[1..], first + 1, limit);
    }
  }

  class OllamaEmbedder {
    const service: LocalService
    var calls: nat
    var slept: nat

    constructor (service: LocalService)
      ensures this.service == service && calls == slept == 0
    {
      this.service := service;
      calls, slept := 0, 0;
    }

    /** Every failure is retried: the first usable reply wins, and only `limit` failures in a row raise. */
    method EmbedOneWithRetry(text: string, limit: nat) returns (outcome: Outcome)
      modifies this
      ensures (outcome, calls) == RetryLocal(service, text, old(calls), limit)
      ensures outcome.Exhausted? <==> limit == 0
      ensures limit == 0 ==> calls == old(calls) && slept == old(slept)
      ensures limit > 0 ==>
        var k := calls - old(calls);
        && 1 <= k <= limit && slept == old(slept) + Pow2(k - 1) - 1
        && (forall n :: old(calls) <= n < calls - 1 ==> !AskLocal(service, n, text).Usable())
        && (!AskLocal(service, calls - 1, text).Usable() ==> k == limit)
        && outcome == LocalResult(AskLocal(service, calls - 1, text))
    {
      var delay := 1;
      for attempt := 1 to limit + 1
        invariant limit > 0 ==> attempt <= limit
        invariant calls == old(calls) + attempt - 1
        invariant delay == Pow2(attempt - 1) && slept == old(slept) + delay - 1
        invariant forall n :: old(calls) <= n < calls ==> !AskLocal(service, n, text).Usable()
      {
        RetryLocalAgain(service, text, old(calls), limit, attempt - 1);
        var reply := AskLocal(service, calls, text);
        calls := calls + 1;
        if reply.Usable() {
          return Embedded([reply.vectors[0]]);
        }
        if attempt == limit {
          return Raised(reply.Error());
        }
        slept := slept + delay;
        delay := delay * 2;
      }
      return Exhausted;
    }

    /** One vector per text in input order if every usable reply is the text's vector, with
        between one call and `limit` calls for each text; otherwise the error of the last call. */
    method EmbedMany(texts: seq<string>, limit: nat) returns (outcome: Outcome)
      modifies this
      ensures (outcome, calls) == EmbeddingLocal(service, texts, old(calls), limit)
      ensures forall embed :: HonestLocal(service, embed) && outcome.Embedded? ==>
        outcome.vectors == EmbedAll(embed, texts)
      ensures outcome.Embedded? ==> |texts| <= calls - old(calls) <= |texts| * limit
      ensures !outcome.Embedded? && limit > 0 ==>
        exists text :: text in texts && LastLocalFailed(service, calls, text, outcome)
    {
      hide EmbeddingLocal, RetryLocal, EmbedAll, HonestLocal;
      forall embed | HonestLocal(service, embed)
        ensures var out := EmbeddingLocal(service, texts, calls, limit).0;
          out.Embedded? ==> out.vectors == EmbedAll(embed, texts)
      {
        EmbeddingLocalInOrder(service, texts, calls, limit, embed);
      }
      var results: seq<Vector> := [];
      ghost var start := calls;
      LocalStart(service, texts, start, limit);
      for i := 0 to |texts|
        invariant LocalToGo(service, texts, start, limit, results, i, calls)
        invariant i <= calls - start <= i * limit
      {
        ghost var before := calls;
        var embedding := EmbedOneWithRetry(texts[i], limit);
        NextText(service, texts, start, limit, results, i, before);
        if !embedding.Embedded? {
          assert limit > 0 ==> LastLocalFailed(service, calls, texts[i], embedding);
          return embedding;
        }
        assert (i + 1) * limit == i * limit + limit;
        results := results + embedding.vectors;
      }
      LocalEnd(service, texts, start, limit, results, calls);
      return Embedded(results);
    }
  }

  ghost predicate LocalToGo(service: LocalService, texts: seq<string>, first: nat, limit: nat,
                            vectors: seq<Vector>, done: nat, next: nat)
    requires done <= |texts|
  {
    var (rest, end) := EmbeddingLocal(service, texts[done..], next, limit);
    EmbeddingLocal(service, texts, first, limit) == (After(vectors, rest), end)
  }

  lemma LocalStart(service: LocalService, texts: seq<string>, first: nat, limit: nat)
    ensures LocalToGo(service, texts, first, limit, [], 0, first)
  {
    assert texts[0..] == texts;
    var (rest, end) := EmbeddingLocal(service, texts, first, limit);
    assert After([], rest) == rest;
  }

  lemma LocalEnd(service: LocalService, texts: seq<string>, first: nat, limit: nat, vectors: seq<Vector>, next: nat)
    requires LocalToGo(service, texts, first, limit, vectors, |texts|, next)
    ensures EmbeddingLocal(service, texts, first, limit) == (Embedded(vectors), next)
  {
    assert texts[|texts|..] == [];
    assert vectors + [] == vectors;
  }

  lemma NextText(service: LocalService, texts: seq<string>, first: nat, limit: nat,
                 vectors: seq<Vector>, i: nat, next: nat)
    requires i < |texts| && LocalToGo(service, texts, first, limit, vectors, i, next)
    ensures var (outcome, calls) := RetryLocal(service, texts[i], next, limit);
      if outcome.Embedded? then LocalToGo(service, texts, first, limit, vectors + outcome.vectors, i + 1, calls)
      else EmbeddingLocal(service, texts, first, limit) == (outcome, calls)
  {
    var rest := texts[i..];
    assert rest[0] == texts[i] && rest[1..] == texts[i + 1..];
    var (outcome, calls) := RetryLocal(service, texts[i], next, limit);
    if outcome.Embedded? {
      AfterTwice(vectors, outcome.vectors, EmbeddingLocal(service, rest[1..], calls, limit).0);
    }
  }

  // ---------------------------------------------------------------- either provider

  const MAX_RETRIES := 5

  /** What `get_embedder` returns, with the replies it is going to meet. */
  datatype Provider = OpenAI(service: Service) | Ollama(local: LocalService) {
    /** The outcome of `embed_many`. */
    function EmbedMany(texts: seq<string>): Outcome {
      if OpenAI? then Embedding(service, texts, 0, MAX_RETRIES).0 else EmbeddingLocal(local, texts, 0, MAX_RETRIES).0
    }

    ghost predicate IsHonest(embed: string -> Vector) {
      if OpenAI? then Honest(service, embed) else HonestLocal(local, embed)
    }
  }

  /** Either provider is asked five times for one short list: four failures that are retried
      do no harm, the fifth is raised. */
  lemma FiveAttempts(provider: Provider, text: string)
    requires match provider
      case OpenAI(service) => forall n :: 0 <= n < 4 ==> Ask(service, n, [text]).RateLimited?
      case Ollama(local) => forall n :: 0 <= n < 4 ==> AskLocal(local, n, text).Failure?
    ensures match provider
      case OpenAI(service) =>
        var reply := Ask(service, 4, [text]);
        && (reply.Data? ==> provider.EmbedMany([text]) == Embedded(Vectors(SortByIndex(reply.items))))
        && (!reply.Data? ==> provider.EmbedMany([text]) == Raised(reply.error))
      case Ollama(local) =>
        var reply := AskLocal(local, 4, text);
        && (reply.Usable() ==> provider.EmbedMany([text]) == Embedded(reply.vectors[..1]))
        && (reply.Failure? ==> provider.EmbedMany([text]) == Raised(reply.error))
  {
    assert [text][..1] == [text] && [text][1..] == [];
    match provider
    case OpenAI(service) =>
      RetryOutcome(service, [text], 0, MAX_RETRIES, 4);
      Alone(service, [text], 0, MAX_RETRIES);
    case Ollama(local) =>
      RetryLocalOutcome(local, text, 0, MAX_RETRIES, 4);
      AloneLocal(local, text, 0, MAX_RETRIES);
  }

  lemma Alone(service: Service, texts: seq<string>, first: nat, limit: nat)
    requires 0 < |texts| <= 100
    ensures Embedding(service, texts, first, limit) == Retry(service, texts, first, limit)
  {
    var n := Min(BATCH_SIZE, |texts|);
    assert texts[..n] == texts && texts[n..] == [];
    var (head, next) := Retry(service, texts, first, limit);
    assert head.Embedded? ==> After(head.vectors, Embedded([])) == head;
  }

  lemma AloneLocal(service: LocalService, text: string, first: nat, limit: nat)
    ensures EmbeddingLocal(service, [text], first, limit) == RetryLocal(service, text, first, limit)
  {
    assert [text][1..] == [];
    var (head, next) := RetryLocal(service, text, first, limit);
    assert head.Embedded? ==> After(head.vectors, Embedded([])) == head;
  }

  lemma ProviderInOrder(provider: Provider, texts: seq<string>, embed: string -> Vector)
    requires provider.IsHonest(embed)
    ensures var outcome := provider.EmbedMany(texts);
      outcome.Embedded? ==> outcome.vectors == EmbedAll(embed, texts)
  {
    match provider
    case OpenAI(service) => EmbeddingInOrder(service, texts, 0, MAX_RETRIES, embed);
    case Ollama(local) => EmbeddingLocalInOrder(local, texts, 0, MAX_RETRIES, embed);
  }
}
