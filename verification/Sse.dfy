/** The event stream of a query (app/query/service.py, query_stream) and its round
    trip through the chat page. */
module Sse {
  import opened Wrappers
  import opened Json
  import opened Decimal
  import opened Strings
  import opened Chat

  /** A similarity as `round(float(x), 4)` prints it; the cosine distance of a zero vector is NaN. */
  datatype Similarity = Rounded(lexeme: string) | Undefined

  datatype Source = Source(documentId: PyString, filename: PyString, chunkIndex: nat, similarity: Similarity)

  type Event = Value<PyString>

  /** Events are objects whose numbers are written as JSON numbers. */
  ghost predicate Sendable(e: Event) { e.Obj? && WellFormed(e) }

  ghost predicate Writable(s: Source) { s.similarity.Rounded? ==> ValidNumber(s.similarity.lexeme) }

  function SourceValue(s: Source): Value<PyString> {
    Obj([Field(Points("document_id"), Str(s.documentId)),
         Field(Points("filename"), Str(s.filename)),
         Field(Points("chunk_index"), Num(Digits(s.chunkIndex))),
         Field(Points("similarity"), SimilarityValue(s))])
  }

  function SimilarityValue(s: Source): Value<PyString> {
    if s.similarity.Rounded? then Num(s.similarity.lexeme) else NotANumber
  }

  function SourceValues(sources: seq<Source>): seq<Value<PyString>> {
    seq(|sources|, i requires 0 <= i < |sources| => SourceValue(sources[i]))
  }

  /** A message of some kind with one payload. */
  function Message(kind: string, name: string, payload: Value<PyString>): Event {
    Obj([Field(Points("type"), Str(Points(kind))), Field(Points(name), payload)])
  }

  function SourcesEvent(sources: seq<Source>): Event {
    Message("sources", "sources", Arr(SourceValues(sources)))
  }

  function TokenEvent(token: PyString): Event {
    Message("token", "data", Str(token))
  }

  /** A message without payload. */
  function Signal(kind: string): Event { Obj([Field(Points("type"), Str(Points(kind)))]) }

  const DONE_EVENT: Event := Signal("done")

  function Frame(data: string): string { PREFIX + (data + ['\n', '\n']) }

  /** The framed events, without the end marker. */
  function Wire(events: seq<Event>): string {
    if events == [] then "" else Frame(Dumps(events[0])) + Wire(events[1..])
  }

  function Stream(events: seq<Event>): string { Wire(events) + Frame(DONE) }

  function TokenEvents(tokens: seq<PyString>): seq<Event> {
    if tokens == [] then [] else [TokenEvent(tokens[0])] + TokenEvents(tokens[1..])
  }

  function Join(tokens: seq<PyString>): PyString {
    if tokens == [] then [] else tokens[0] + Join(tokens[1..])
  }

  function FreshEvents(sources: seq<Source>, tokens: seq<PyString>): seq<Event> {
    [SourcesEvent(sources)] + (TokenEvents(tokens) + [DONE_EVENT])
  }

  /** `answer.split(" ")`. */
  function SplitSpaces(s: PyString): (words: seq<PyString>)
    ensures words != []
  {
    if s == [] then [[]]
    else
      var t := SplitSpaces(s[1..]);
      if s[0] == 0x20 then [[]] + t else [[s[0]] + t[0]] + t[1..]
  }

  function Spaced(words: seq<PyString>): seq<PyString> {
    if words == [] then [] else [words[0] + [0x20]] + Spaced(words[1..])
  }

  function CachedEvents(sources: seq<Source>, answer: PyString): seq<Event> {
    (if sources == [] then [] else [SourcesEvent(sources)]) + (TokenEvents(Spaced(SplitSpaces(answer))) + [DONE_EVENT])
  }

  // ---------------------------------------------------------------- the generators

  lemma {:induction false} WireAppend(a: seq<Event>, b: seq<Event>)
    ensures Wire(a + b) == Wire(a) + Wire(b)
  {
    if a == [] {
      assert a + b == b;
    } else {
      assert (a + b)[1..] == a[1..] + b;
      WireAppend(a[1..], b);
    }
  }

  lemma {:induction false} TokenEventsAppend(a: seq<PyString>, token: PyString)
    ensures TokenEvents(a + [token]) == TokenEvents(a) + [TokenEvent(token)]
    ensures Join(a + [token]) == Join(a) + token
  {
    if a != [] {
      assert (a + [token])[1..] == a[1..] + [token];
      TokenEventsAppend(a[1..], token);
    }
  }

  lemma WireOne(e: Event)
    ensures Wire([e]) == Frame(Dumps(e))
  {
    assert [e][1..] == [];
  }

  /** A query that misses the cache: what is yielded, and the text that is logged and cached. */
  method StreamFresh(sources: seq<Source>, tokens: seq<PyString>) returns (wire: string, fullAnswer: PyString)
    ensures wire == Stream(FreshEvents(sources, tokens))
    ensures fullAnswer == Join(tokens)
  {
    ghost var head := [SourcesEvent(sources)];
    wire := Frame(Dumps(SourcesEvent(sources)));
    fullAnswer := [];
    WireOne(SourcesEvent(sources));
    assert head + [] == head;
    for i := 0 to |tokens|
      invariant wire == Wire(head + TokenEvents(tokens[..i]))
      invariant fullAnswer == Join(tokens[..i])
    {
      fullAnswer := fullAnswer + tokens[i];
      wire := wire + Frame(Dumps(TokenEvent(tokens[i])));
      assert tokens[..i] + [tokens[i]] == tokens[..i + 1];
      TokenEventsAppend(tokens[..i], tokens[i]);
      WireToken(head, tokens[..i], tokens[i]);
    }
    assert tokens[..|tokens|] == tokens;
    WireEnd(head, tokens);
    wire := wire + Frame(Dumps(DONE_EVENT));
    wire := wire + Frame(DONE);
  }

  /** A query answered from the cache: the stored answer word by word. */
  method StreamCached(sources: seq<Source>, answer: PyString) returns (wire: string)
    ensures wire == Stream(CachedEvents(sources, answer))
  {
    wire := "";
    ghost var head: seq<Event> := [];
    if sources != [] {
      wire := Frame(Dumps(SourcesEvent(sources)));
      WireOne(SourcesEvent(sources));
      head := [SourcesEvent(sources)];
    }
    var words := SplitSpaces(answer);
    for i := 0 to |words|
      invariant wire == Wire(head + TokenEvents(Spaced(words[..i])))
    {
      wire := wire + Frame(Dumps(TokenEvent(words[i] + [0x20])));
      SpacedAppend(words[..i], words[i]);
      assert words[..i] + [words[i]] == words[..i + 1];
      WireToken(head, Spaced(words[..i]), words[i] + [0x20]);
    }
    assert words[..|words|] == words;
    WireEnd(head, Spaced(words));
    wire := wire + Frame(Dumps(DONE_EVENT));
    wire := wire + Frame(DONE);
  }

  lemma WireToken(head: seq<Event>, tokens: seq<PyString>, token: PyString)
    ensures Wire(head + TokenEvents(tokens + [token])) ==
      Wire(head + TokenEvents(tokens)) + Frame(Dumps(TokenEvent(token)))
  {
    var e := TokenEvent(token);
    TokenEventsAppend(tokens, token);
    Assoc(head, TokenEvents(tokens), [e]);
    WireAppend(head + TokenEvents(tokens), [e]);
    WireOne(e);
  }

  lemma WireEnd(head: seq<Event>, tokens: seq<PyString>)
    ensures Wire(head + (TokenEvents(tokens) + [DONE_EVENT])) ==
      Wire(head + TokenEvents(tokens)) + Frame(Dumps(DONE_EVENT))
  {
    Assoc(head, TokenEvents(tokens), [DONE_EVENT]);
    WireAppend(head + TokenEvents(tokens), [DONE_EVENT]);
    WireOne(DONE_EVENT);
  }

  lemma {:induction false} SpacedAppend(a: seq<PyString>, word: PyString)
    ensures Spaced(a + [word]) == Spaced(a) + [word + [0x20]]
  {
    if a != [] {
      assert (a + [word])[1..] == a[1..] + [word];
      SpacedAppend(a[1..], word);
    }
  }

  lemma JoinFirst(word: PyString, rest: seq<PyString>)
    ensures Join([word] + rest) == word + Join(rest)
    ensures Spaced([word] + rest) == [word + [0x20]] + Spaced(rest)
  {
    assert ([word] + rest)[1..] == rest;
  }

  /** Splitting at spaces and giving every word one back yields the answer and one space. */
  lemma {:induction false} SpacedJoins(s: PyString)
    ensures Join(Spaced(SplitSpaces(s))) == s + [0x20]
  {
    if s == [] {
      JoinFirst([], []);
      JoinFirst([] + [0x20], []);
      assert [[]] + [] == SplitSpaces(s);
      assert [[] + [0x20]] + [] == Spaced(SplitSpaces(s));
    } else {
      var t := SplitSpaces(s[1..]);
      SpacedJoins(s[1..]);
      assert [s[0]] + (s[1..] + [0x20]) == s + [0x20];
      if s[0] == 0x20 {
        JoinFirst([], t);
        JoinFirst([] + [0x20], Spaced(t));
        assert [] + [0x20] == [s[0]];
      } else {
        FirstWord(s[0], t);
      }
    }
  }

  lemma FirstWord(c: CodePoint, t: seq<PyString>)
    requires t != []
    ensures Join(Spaced([[c] + t[0]] + t[1..])) == [c] + Join(Spaced(t))
  {
    var w, rest := t[0], t[1..];
    assert t == [w] + rest;
    JoinFirst(w, rest);
    JoinFirst(w + [0x20], Spaced(rest));
    JoinFirst([c] + w, rest);
    JoinFirst([c] + w + [0x20], Spaced(rest));
    Assoc([c], w, [0x20]);
    Assoc([c], w + [0x20], Join(Spaced(rest)));
  }

  // ---------------------------------------------------------------- what the page makes of a stream

  /** An event with a NaN is no JSON: the page takes its text for part of the answer. */
  function Shown(js: Js, view: View, e: Event): View {
    if Finite(e) then Apply(js, view, ToJs(e), Units(Dumps(e)))
    else view.(answer := view.answer + Units(Dumps(e)))
  }

  function ShownAll(js: Js, view: View, events: seq<Event>): View
    decreases |events|
  {
    if events == [] then view else ShownAll(js, Shown(js, view, events[0]), events[1..])
  }

  lemma TrimNothing(s: string)
    requires s != "" && !IsJsSpace(s[0]) && !IsJsSpace(s[|s| - 1])
    ensures Trim(s) == s
  {
  }

  /** No printed event holds a line break or can be taken for the end marker. */
  lemma EventLine(js: Js, view: View, e: Event)
    requires Sendable(e)
    ensures var line := PREFIX + Dumps(e);
      '\n' !in line && IsData(line) && !IsDone(line) && Handle(js, view, line) == Shown(js, view, e)
  {
    var d := Dumps(e);
    DumpsPrintable(e);
    assert (PREFIX + d)[6..] == d && d[0] == '{' && d[|d| - 1] == '}';
    TrimNothing(d);
    DumpsParse(e);
  }

  lemma SplitFrame(data: string, rest: string)
    requires '\n' !in data
    ensures SplitLines(Frame(data) + rest) == [PREFIX + data, ""] + SplitLines(rest)
  {
    SplitLine(PREFIX + data, ['\n'] + rest);
    SplitLine("", rest);
    assert Frame(data) + rest == (PREFIX + data) + (['\n'] + (['\n'] + rest));
    assert "" + (['\n'] + rest) == ['\n'] + rest;
  }

  /** The lines of a stream: data and blank lines, the end marker last, nothing unfinished. */
  lemma {:induction false} StreamLines(js: Js, view: View, events: seq<Event>)
    requires forall i :: 0 <= i < |events| ==> Sendable(events[i])
    ensures var lines := SplitLines(Stream(events));
      Last(lines) == "" && NothingAfterDone(Init(lines)) && FoldAll(js, view, Init(lines)) == ShownAll(js, view, events)
    decreases |events|
  {
    if events == [] {
      EmptyStream(js, view);
    } else {
      EventLine(js, view, events[0]);
      StreamFirst(events);
      StreamLines(js, Shown(js, view, events[0]), events[1..]);
      TwoMore(js, view, PREFIX + Dumps(events[0]), SplitLines(Stream(events[1..])));
    }
  }

  lemma StreamFirst(events: seq<Event>)
    requires events != [] && WellFormed(events[0])
    ensures SplitLines(Stream(events)) == [PREFIX + Dumps(events[0]), ""] + SplitLines(Stream(events[1..]))
  {
    var d := Dumps(events[0]);
    DumpsPrintable(events[0]);
    SplitFrame(d, Stream(events[1..]));
    Assoc(Frame(d), Wire(events[1..]), Frame(DONE));
  }

  lemma EndMarker(js: Js, view: View)
    ensures IsDone(PREFIX + DONE) && NothingAfterDone([PREFIX + DONE, ""])
    ensures FoldAll(js, view, [PREFIX + DONE, ""]) == view
  {
    var l := PREFIX + DONE;
    assert l[6..] == DONE;
    assert [l, ""][1..] == [""] && [""][1..] == [];
  }

  lemma EmptyStream(js: Js, view: View)
    ensures var lines := SplitLines(Stream([]));
      Last(lines) == "" && NothingAfterDone(Init(lines)) && FoldAll(js, view, Init(lines)) == view
  {
    SplitFrame(DONE, "");
    EndMarker(js, view);
    assert Stream([]) == Frame(DONE) + "";
    assert Init([PREFIX + DONE, ""] + [""]) == [PREFIX + DONE, ""];
  }

  lemma TwoMore(js: Js, view: View, line: string, rest: seq<string>)
    requires rest != [] && !IsDone(line) && NothingAfterDone(Init(rest))
    ensures var all := [line, ""] + rest;
      && Last(all) == Last(rest) && NothingAfterDone(Init(all))
      && FoldAll(js, view, Init(all)) == FoldAll(js, Handle(js, view, line), Init(rest))
  {
    var lines := Init(rest);
    var all := [line, ""] + lines;
    assert Init([line, ""] + rest) == all;
    assert all[1..] == [""] + lines && ([""] + lines)[1..] == lines;
    assert forall i :: 2 <= i < |all| ==> all[i] == lines[i - 2];
  }

  /** Every cut of a stream into reads shows the same: the events in order. */
  lemma StreamIsShown(js: Js, events: seq<Event>, chunks: seq<string>)
    requires forall i :: 0 <= i < |events| ==> Sendable(events[i])
    requires Flatten(chunks) == Stream(events)
    ensures FeedAll(js, Reader(BLANK, ""), chunks) == Reader(ShownAll(js, BLANK, events), "")
  {
    StreamLines(js, BLANK, events);
    assert "" + Flatten(chunks) == Stream(events);
    AnySegmentation(js, Reader(BLANK, ""), chunks);
  }

  // ---------------------------------------------------------------- fresh and cached answers

  lemma {:induction false} Ascii(s: string)
    requires forall i :: 0 <= i < |s| ==> s[i] as int < 0x80
    ensures Utf16(Points(s)) == Points(s) && |Points(s)| == |s|
    ensures s != "" ==> Points(s)[0] == s[0] as int
  {
    if s != "" {
      Ascii(s[1..]);
      assert Points(s)[1..] == Points(s[1..]);
    }
  }

  /** The words the two sides use are distinct. */
  lemma Keywords()
    ensures Units("type") != Units("data") && Units("type") != Units("sources") && Units("data") != Units("sources")
    ensures Units("token") != Units("sources") && Units("token") != Units("done") && Units("done") != Units("sources")
  {
    Ascii("type");
    Ascii("data");
    Ascii("sources");
    Ascii("token");
    Ascii("done");
  }

  lemma LookupOne(a: Field<JsString>, key: JsString)
    ensures Lookup([a], key) == if a.key == key then Some(a.value) else None
  {
    assert [a][..0] == [];
  }

  lemma LookupTwo(a: Field<JsString>, b: Field<JsString>, key: JsString)
    ensures Lookup([a, b], key) == if b.key == key then Some(b.value) else if a.key == key then Some(a.value) else None
  {
    assert [a, b][..1] == [a];
    LookupOne(a, key);
  }

  lemma ToJsOne(a: Field<PyString>)
    ensures ToJsFields([a]) == [ToJsField(a)]
  {
    assert [a][1..] == [];
  }

  lemma ToJsTwo(a: Field<PyString>, b: Field<PyString>)
    ensures ToJsFields([a, b]) == [ToJsField(a), ToJsField(b)]
  {
    assert [a, b][1..] == [b];
    ToJsOne(b);
  }

  function Received(kind: string, name: string, payload: Value<JsString>): Value<JsString> {
    Obj([Field(Units("type"), Str(Units(kind))), Field(Units(name), payload)])
  }

  lemma MessageToJs(kind: string, name: string, payload: Value<PyString>)
    ensures ToJs(Message(kind, name, payload)) == Received(kind, name, ToJs(payload))
  {
    ToJsTwo(Field(Points("type"), Str(Points(kind))), Field(Points(name), payload));
  }

  lemma ReceivedFields(kind: string, name: string, payload: Value<JsString>)
    requires Units("type") != Units(name)
    ensures Lookup(Received(kind, name, payload).fields, Units("type")) == Some(Str(Units(kind)))
    ensures Lookup(Received(kind, name, payload).fields, Units(name)) == Some(payload)
  {
    var a, b := Field(Units("type"), Str(Units(kind))), Field(Units(name), payload);
    LookupTwo(a, b, Units("type"));
    LookupTwo(a, b, Units(name));
  }

  lemma TokenApplied(js: Js, view: View, data: JsString, raw: JsString)
    ensures Apply(js, view, Received("token", "data", Str(data)), raw) == view.(answer := view.answer + data)
  {
    Keywords();
    ReceivedFields("token", "data", Str(data));
    if data == [] {
      assert view.answer + data == view.answer;
    }
  }

  lemma SourcesApplied(js: Js, view: View, sources: seq<Value<JsString>>, raw: JsString)
    ensures Apply(js, view, Received("sources", "sources", Arr(sources)), raw) == view.(sources := Arr(sources))
  {
    Keywords();
    ReceivedFields("sources", "sources", Arr(sources));
  }

  lemma MessageShown(js: Js, view: View, kind: string, name: string, payload: Value<PyString>)
    requires Finite(payload)
    ensures var e := Message(kind, name, payload);
      Shown(js, view, e) == Apply(js, view, Received(kind, name, ToJs(payload)), Units(Dumps(e)))
  {
    MessageToJs(kind, name, payload);
    MessageFinite(kind, name, payload);
  }

  lemma TokenShown(js: Js, view: View, token: PyString)
    ensures Shown(js, view, TokenEvent(token)) == view.(answer := view.answer + Utf16(token))
  {
    MessageShown(js, view, "token", "data", Str(token));
    TokenApplied(js, view, Utf16(token), Units(Dumps(TokenEvent(token))));
  }

  lemma SourcesShown(js: Js, view: View, sources: seq<Source>)
    requires Finite(SourcesEvent(sources))
    ensures Shown(js, view, SourcesEvent(sources)) == view.(sources := Arr(ToJsItems(SourceValues(sources))))
  {
    MessageFinite("sources", "sources", Arr(SourceValues(sources)));
    MessageShown(js, view, "sources", "sources", Arr(SourceValues(sources)));
    SourcesApplied(js, view, ToJsItems(SourceValues(sources)), Units(Dumps(SourcesEvent(sources))));
  }

  lemma MessageFinite(kind: string, name: string, payload: Value<PyString>)
    ensures Finite(Message(kind, name, payload)) <==> Finite(payload)
    ensures WellFormed(Message(kind, name, payload)) <==> WellFormed(payload)
  {
    TwoFinite(Field(Points("type"), Str(Points(kind))), Field(Points(name), payload));
  }

  lemma OtherKindApplied(js: Js, view: View, kind: JsString, raw: JsString)
    requires kind != Units("token") && kind != Units("sources")
    ensures Apply(js, view, Obj([Field(Units("type"), Str(kind))]), raw) == view
  {
    LookupOne(Field(Units("type"), Str(kind)), Units("type"));
  }

  lemma SignalShown(js: Js, view: View, kind: string)
    ensures var e := Signal(kind);
      Shown(js, view, e) == Apply(js, view, Obj([Field(Units("type"), Str(Units(kind)))]), Units(Dumps(e)))
  {
    var f := Field(Points("type"), Str(Points(kind)));
    ToJsOne(f);
    assert [f][0] == f && Finite(f.value);
  }

  lemma DoneShown(js: Js, view: View)
    ensures Shown(js, view, DONE_EVENT) == view
  {
    Keywords();
    SignalShown(js, view, "done");
    OtherKindApplied(js, view, Units("done"), Units(Dumps(DONE_EVENT)));
  }

  lemma {:induction false} TokensShown(js: Js, view: View, tokens: seq<PyString>)
    ensures ShownAll(js, view, TokenEvents(tokens) + [DONE_EVENT]) == view.(answer := view.answer + Utf16(Join(tokens)))
    decreases |tokens|
  {
    if tokens == [] {
      DoneShown(js, view);
      ShownFirst(js, view, DONE_EVENT, []);
      assert view.answer + [] == view.answer;
      assert TokenEvents(tokens) + [DONE_EVENT] == [DONE_EVENT] + [];
    } else {
      var answer, more := view.answer + Utf16(tokens[0]), Join(tokens[1..]);
      TokenShown(js, view, tokens[0]);
      var e, rest := TokenEvent(tokens[0]), TokenEvents(tokens[1..]);
      ShownFirst(js, view, e, rest + [DONE_EVENT]);
      Assoc([e], rest, [DONE_EVENT]);
      TokensShown(js, view.(answer := answer), tokens[1..]);
      Utf16Append(tokens[0], more);
      Assoc(view.answer, Utf16(tokens[0]), Utf16(more));
    }
  }

  lemma ShownFirst(js: Js, view: View, e: Event, rest: seq<Event>)
    ensures ShownAll(js, view, [e] + rest) == ShownAll(js, Shown(js, view, e), rest)
  {
    assert ([e] + rest)[1..] == rest;
  }

  lemma {:induction false} TokensSendable(tokens: seq<PyString>)
    ensures forall i :: 0 <= i < |TokenEvents(tokens)| ==> Sendable(TokenEvents(tokens)[i])
  {
    if tokens != [] {
      var events, rest := TokenEvents(tokens), TokenEvents(tokens[1..]);
      TokensSendable(tokens[1..]);
      MessageFinite("token", "data", Str(tokens[0]));
      assert forall i :: 0 < i < |events| ==> events[i] == rest[i - 1];
    }
  }

  lemma SourcesSendable(sources: seq<Source>)
    requires forall s :: s in sources ==> Writable(s)
    ensures Sendable(SourcesEvent(sources))
    ensures Finite(SourcesEvent(sources)) <==> forall s :: s in sources ==> s.similarity.Rounded?
  {
    var items := SourceValues(sources);
    MessageFinite("sources", "sources", Arr(items));
    ItemsSendable(sources);
  }

  lemma ItemsSendable(sources: seq<Source>)
    requires forall s :: s in sources ==> Writable(s)
    ensures WellFormed(Arr(SourceValues(sources)))
    ensures Finite(Arr(SourceValues(sources))) <==> forall s :: s in sources ==> s.similarity.Rounded?
  {
    var items := SourceValues(sources);
    forall i | 0 <= i < |items|
      ensures WellFormed(items[i]) && (Finite(items[i]) <==> sources[i].similarity.Rounded?)
    {
      SourceSendable(sources[i]);
    }
    assert Finite(Arr(items)) <==> forall i :: 0 <= i < |items| ==> Finite(items[i]);
  }

  lemma TwoFinite(a: Field<PyString>, b: Field<PyString>)
    ensures Finite(Obj([a, b])) <==> Finite(a.value) && Finite(b.value)
    ensures WellFormed(Obj([a, b])) <==> WellFormed(a.value) && WellFormed(b.value)
  {
    var f := [a, b];
    assert f[0] == a && f[1] == b;
    assert forall i :: 0 <= i < |f| ==> f[i] == a || f[i] == b;
    assert Finite(Obj(f)) ==> Finite(f[0].value) && Finite(f[1].value);
    assert WellFormed(Obj(f)) ==> WellFormed(f[0].value) && WellFormed(f[1].value);
  }

  lemma FourFinite(a: Field<PyString>, b: Field<PyString>, c: Field<PyString>, d: Field<PyString>)
    requires Finite(a.value) && Finite(b.value) && Finite(c.value)
    requires WellFormed(a.value) && WellFormed(b.value) && WellFormed(c.value) && WellFormed(d.value)
    ensures WellFormed(Obj([a, b, c, d])) && (Finite(Obj([a, b, c, d])) <==> Finite(d.value))
  {
    var f := [a, b, c, d];
    assert forall i :: 0 <= i < |f| ==> f[i] == a || f[i] == b || f[i] == c || f[i] == d;
    assert Finite(Obj(f)) ==> Finite(f[3].value);
  }

  lemma SourceSendable(s: Source)
    requires Writable(s)
    ensures WellFormed(SourceValue(s)) && (Finite(SourceValue(s)) <==> s.similarity.Rounded?)
  {
    DigitsAreJson(s.chunkIndex);
    FourFinite(Field(Points("document_id"), Str(s.documentId)), Field(Points("filename"), Str(s.filename)),
               Field(Points("chunk_index"), Num(Digits(s.chunkIndex))),
               Field(Points("similarity"), SimilarityValue(s)));
  }

  ghost predicate AllDefined(sources: seq<Source>) { forall s :: s in sources ==> s.similarity.Rounded? }

  /** The view after the sources event. */
  function AfterSources(js: Js, sources: seq<Source>): View {
    Shown(js, BLANK, SourcesEvent(sources))
  }

  lemma FreshShown(js: Js, sources: seq<Source>, tokens: seq<PyString>, chunks: seq<string>)
    requires forall s :: s in sources ==> Writable(s)
    requires Flatten(chunks) == Stream(FreshEvents(sources, tokens))
    ensures var v := AfterSources(js, sources);
      FeedAll(js, Reader(BLANK, ""), chunks) == Reader(v.(answer := v.answer + Utf16(Join(tokens))), "")
  {
    var events := FreshEvents(sources, tokens);
    TokensSendable(tokens);
    SourcesSendable(sources);
    assert Sendable(DONE_EVENT);
    assert events[1..] == TokenEvents(tokens) + [DONE_EVENT];
    StreamIsShown(js, events, chunks);
    TokensShown(js, AfterSources(js, sources), tokens);
  }

  /** An empty list of sources need not be sent. */
  lemma CachedEventsShown(js: Js, sources: seq<Source>, answer: PyString)
    ensures ShownAll(js, BLANK, CachedEvents(sources, answer)) ==
      ShownAll(js, AfterSources(js, sources), TokenEvents(Spaced(SplitSpaces(answer))) + [DONE_EVENT])
  {
    hide Shown, TokenEvents;
    var rest := TokenEvents(Spaced(SplitSpaces(answer))) + [DONE_EVENT];
    if sources == [] {
      assert CachedEvents(sources, answer) == rest;
      SourcesSendable(sources);
      SourcesShown(js, BLANK, sources);
    } else {
      ShownFirst(js, BLANK, SourcesEvent(sources), rest);
    }
  }

  /** What a replay shows, for every cut of its bytes. */
  lemma CachedShown(js: Js, sources: seq<Source>, answer: PyString, chunks: seq<string>)
    requires forall s :: s in sources ==> Writable(s)
    requires Flatten(chunks) == Stream(CachedEvents(sources, answer))
    ensures var v := AfterSources(js, sources);
      FeedAll(js, Reader(BLANK, ""), chunks) == Reader(v.(answer := v.answer + Utf16(answer + [0x20])), "")
  {
    var words := Spaced(SplitSpaces(answer));
    TokensSendable(words);
    SourcesSendable(sources);
    assert Sendable(DONE_EVENT);
    StreamIsShown(js, CachedEvents(sources, answer), chunks);
    CachedEventsShown(js, sources, answer);
    SpacedJoins(answer);
    TokensShown(js, AfterSources(js, sources), words);
  }

  /** The page ends with some text and the sources sent exactly when every similarity is a number. */
  lemma SourcesArrive(js: Js, sources: seq<Source>, text: JsString)
    requires forall s :: s in sources ==> Writable(s)
    ensures var v := AfterSources(js, sources);
      v.(answer := v.answer + text) == View(text, Arr(ToJsItems(SourceValues(sources)))) <==> AllDefined(sources)
  {
    SourcesSendable(sources);
    if AllDefined(sources) {
      SourcesShown(js, BLANK, sources);
      assert [] + text == text;
    } else {
      var d := Dumps(SourcesEvent(sources));
      UnitsNonEmpty(d);
      assert AfterSources(js, sources).answer == [] + Units(d);
      assert |Units(d) + text| > |text|;
    }
  }

  lemma UnitsNonEmpty(s: string)
    requires s != ""
    ensures Units(s) != []
  {
  }

  /** Round trip: from a fresh query, for every cut of its bytes, the page ends with exactly
      the text the server logs and caches and with the sources sent, if and only if every
      similarity is a number. */
  lemma FreshRoundTrip(js: Js, sources: seq<Source>, tokens: seq<PyString>, chunks: seq<string>)
    requires forall s :: s in sources ==> Writable(s)
    requires Flatten(chunks) == Stream(FreshEvents(sources, tokens))
    ensures FeedAll(js, Reader(BLANK, ""), chunks) ==
        Reader(View(Utf16(Join(tokens)), Arr(ToJsItems(SourceValues(sources)))), "")
      <==> AllDefined(sources)
  {
    FreshShown(js, sources, tokens, chunks);
    SourcesArrive(js, sources, Utf16(Join(tokens)));
  }

  /** Replay: from a cached answer the page ends with the answer and one space, whatever
      its spaces, and with the same sources, if and only if every similarity is a number. */
  lemma CachedRoundTrip(js: Js, sources: seq<Source>, answer: PyString, chunks: seq<string>)
    requires forall s :: s in sources ==> Writable(s)
    requires Flatten(chunks) == Stream(CachedEvents(sources, answer))
    ensures FeedAll(js, Reader(BLANK, ""), chunks) ==
        Reader(View(Utf16(answer + [0x20]), Arr(ToJsItems(SourceValues(sources)))), "")
      <==> AllDefined(sources)
  {
    CachedShown(js, sources, answer, chunks);
    SourcesArrive(js, sources, Utf16(answer + [0x20]));
  }

  /** A query repeated: whatever the similarities and however the two streams are cut, the
      replay of what a fresh query cached shows what that query showed and one space more. */
  lemma ReplayMatchesFresh(js: Js, sources: seq<Source>, tokens: seq<PyString>,
                           live: seq<string>, replayed: seq<string>)
    requires forall s :: s in sources ==> Writable(s)
    requires Flatten(live) == Stream(FreshEvents(sources, tokens))
    requires Flatten(replayed) == Stream(CachedEvents(sources, Join(tokens)))
    ensures var first, second := FeedAll(js, Reader(BLANK, ""), live), FeedAll(js, Reader(BLANK, ""), replayed);
      && second.view.sources == first.view.sources && second.buffer == first.buffer == ""
      && second.view.answer == first.view.answer + [0x20]
  {
    FreshShown(js, sources, tokens, live);
    CachedShown(js, sources, Join(tokens), replayed);
    Utf16Append(Join(tokens), [0x20]);
    assert Utf16([0x20]) == [0x20];
    Assoc(AfterSources(js, sources).answer, Utf16(Join(tokens)), [0x20]);
  }

  // ---------------------------------------------------------------- the bytes on the wire

  /** Printable ASCII without quote and backslash is written as it stands. */
  ghost predicate Plain(s: string) { forall c :: c in s ==> ' ' <= c <= '~' && c != '"' && c != '\\' }

  lemma {:induction false} PlainText(s: string)
    requires Plain(s)
    ensures Escape(Points(s)) == s
  {
    if s != "" {
      assert s[0] in s && [s[0]] + s[1..] == s && Points(s)[1..] == Points(s[1..]);
      assert forall c :: c in s[1..] ==> c in s;
      PlainText(s[1..]);
    }
  }

  function Quoted(text: string): string { "\"" + text + "\"" }

  function Member(name: string, value: string): string { Quoted(name) + (": " + value) }

  lemma FieldText(name: string, value: Value<PyString>)
    requires Plain(name)
    ensures DumpField(Field(Points(name), value)) == Member(name, Dumps(value))
  {
    PlainText(name);
  }

  lemma MessageText(kind: string, name: string, payload: Value<PyString>)
    requires Plain(kind) && Plain(name)
    ensures Dumps(Message(kind, name, payload)) ==
      "{" + (Member("type", Quoted(kind)) + (", " + Member(name, Dumps(payload)))) + "}"
  {
    FieldText("type", Str(Points(kind)));
    FieldText(name, payload);
    PlainText(kind);
    hide DumpField, Member, Escape, Points;
    var a, b := Field(Points("type"), Str(Points(kind))), Field(Points(name), payload);
    assert [a, b][1..] == [b];
    assert DumpFields([b]) == DumpField(b);
  }

  lemma DoneText()
    ensures Dumps(DONE_EVENT) == "{" + Member("type", "\"done\"") + "}"
  {
    FieldText("type", Str(Points("done")));
    QuotedDone();
    hide DumpField, Member, Escape, Points, Quote;
  }

  lemma QuotedDone()
    ensures Quote(Points("done")) == "\"done\""
  {
    PlainText("done");
  }

  function SourceText(s: Source): string {
    "{" + (Member("document_id", Quoted(Escape(s.documentId))) +
    (", " + (Member("filename", Quoted(Escape(s.filename))) +
    (", " + (Member("chunk_index", Digits(s.chunkIndex)) +
    (", " + Member("similarity", if s.similarity.Rounded? then s.similarity.lexeme else "NaN"))))))) + "}"
  }

  lemma NamesArePlain()
    ensures Plain("document_id") && Plain("filename") && Plain("chunk_index") && Plain("similarity")
    ensures Plain("type") && Plain("sources")
  {
  }

  lemma DocumentIdText(s: Source)
    ensures DumpField(Field(Points("document_id"), Str(s.documentId))) ==
      Member("document_id", Quoted(Escape(s.documentId)))
  {
    NamesArePlain();
    hide Plain, Points, Escape, DumpField, Member, Digits;
    FieldText("document_id", Str(s.documentId));
  }

  lemma FilenameText(s: Source)
    ensures DumpField(Field(Points("filename"), Str(s.filename))) == Member("filename", Quoted(Escape(s.filename)))
  {
    NamesArePlain();
    hide Plain, Points, Escape, DumpField, Member, Digits;
    FieldText("filename", Str(s.filename));
  }

  lemma ChunkIndexText(s: Source)
    ensures DumpField(Field(Points("chunk_index"), Num(Digits(s.chunkIndex)))) ==
      Member("chunk_index", Digits(s.chunkIndex))
  {
    NamesArePlain();
    hide Plain, Points, Escape, DumpField, Member, Digits;
    FieldText("chunk_index", Num(Digits(s.chunkIndex)));
  }

  lemma SimilarityText(s: Source)
    ensures DumpField(Field(Points("similarity"), SimilarityValue(s))) ==
      Member("similarity", if s.similarity.Rounded? then s.similarity.lexeme else "NaN")
  {
    NamesArePlain();
    hide Plain, Points, Escape, DumpField, Member, Digits;
    FieldText("similarity", SimilarityValue(s));
  }

  lemma SourceIs(s: Source)
    ensures Dumps(SourceValue(s)) == SourceText(s)
  {
    hide DumpField, Member, Escape, Points, Digits, DumpFields, Quoted, SimilarityValue;
    DocumentIdText(s);
    FilenameText(s);
    ChunkIndexText(s);
    SimilarityText(s);
    FourFields(Field(Points("document_id"), Str(s.documentId)), Field(Points("filename"), Str(s.filename)),
               Field(Points("chunk_index"), Num(Digits(s.chunkIndex))),
               Field(Points("similarity"), SimilarityValue(s)));
  }

  lemma FourFields(a: Field<PyString>, b: Field<PyString>, c: Field<PyString>, d: Field<PyString>)
    ensures DumpFields([a, b, c, d]) ==
      DumpField(a) + (", " + (DumpField(b) + (", " + (DumpField(c) + (", " + DumpField(d))))))
  {
    hide DumpField;
    assert [a, b, c, d][1..] == [b, c, d] && [b, c, d][1..] == [c, d] && [c, d][1..] == [d];
    assert DumpFields([d]) == DumpField(d);
    assert DumpFields([c, d]) == DumpField(c) + (", " + DumpField(d));
    assert DumpFields([b, c, d]) == DumpField(b) + (", " + DumpFields([c, d]));
  }

  function SourceTexts(sources: seq<Source>): string {
    if sources == [] then ""
    else if |sources| == 1 then SourceText(sources[0])
    else SourceText(sources[0]) + (", " + SourceTexts(sources[1..]))
  }

  lemma {:induction false} SourcesAre(sources: seq<Source>)
    ensures DumpItems(SourceValues(sources)) == SourceTexts(sources)
  {
    hide Dumps, SourceText;
    if sources != [] {
      SourceIs(sources[0]);
      SourcesAre(sources[1..]);
      assert SourceValues(sources)[1..] == SourceValues(sources[1..]);
    }
  }

  function FrameText(data: string): string { "data: " + (data + "\n\n") }

  function TokenText(token: PyString): string {
    "{" + (Member("type", "\"token\"") + (", " + Member("data", Quoted(Escape(token))))) + "}"
  }

  /** One frame for each token. */
  function TokenFrames(tokens: seq<PyString>): string {
    if tokens == [] then "" else FrameText(TokenText(tokens[0])) + TokenFrames(tokens[1..])
  }

  lemma TokenIs(token: PyString)
    ensures Dumps(TokenEvent(token)) == TokenText(token)
  {
    MessageText("token", "data", Str(token));
    hide Message, Member, Escape, Points;
    assert Quoted("token") == "\"token\"";
  }

  lemma {:induction false} TokensAre(tokens: seq<PyString>)
    ensures Wire(TokenEvents(tokens)) == TokenFrames(tokens)
  {
    if tokens != [] {
      TokenIs(tokens[0]);
      TokensAre(tokens[1..]);
      hide Dumps, TokenText;
      assert TokenEvents(tokens)[1..] == TokenEvents(tokens[1..]);
    }
  }

  function Tail(): string { FrameText("{" + Member("type", "\"done\"") + "}") + FrameText("[DONE]") }

  lemma TailIs(head: seq<Event>, tokens: seq<PyString>)
    ensures Stream(head + (TokenEvents(tokens) + [DONE_EVENT])) == Wire(head) + TokenFrames(tokens) + Tail()
  {
    WireEnd(head, tokens);
    WireAppend(head, TokenEvents(tokens));
    TokensAre(tokens);
    DoneText();
    hide Wire, TokenFrames, TokenEvents, Member, Dumps, DONE_EVENT;
    Assoc(Wire(head) + TokenFrames(tokens), FrameText(Dumps(DONE_EVENT)), FrameText("[DONE]"));
  }

  function SourcesFrame(sources: seq<Source>): string {
    var list := "[" + SourceTexts(sources) + "]";
    FrameText("{" + (Member("type", "\"sources\"") + (", " + Member("sources", list))) + "}")
  }

  lemma SourcesFrameIs(sources: seq<Source>)
    ensures Wire([SourcesEvent(sources)]) == SourcesFrame(sources)
  {
    WireOne(SourcesEvent(sources));
    SourcesText(sources);
    hide Wire, SourcesEvent, Dumps, Member;
  }

  lemma SourcesText(sources: seq<Source>)
    ensures var list := "[" + SourceTexts(sources) + "]";
      Dumps(SourcesEvent(sources)) == "{" + (Member("type", "\"sources\"") + (", " + Member("sources", list))) + "}"
  {
    NamesArePlain();
    hide Plain, DumpItems, SourceTexts, Member, Message, SourceValues;
    MessageText("sources", "sources", Arr(SourceValues(sources)));
    SourcesAre(sources);
    QuotedSources();
    hide Quoted;
  }

  lemma QuotedSources()
    ensures Quoted("sources") == "\"sources\""
  {
  }

  /** What a fresh query sends, byte by byte: a frame with the sources, one for each token, one
      that says done, and the end marker. */
  lemma FreshText(sources: seq<Source>, tokens: seq<PyString>)
    ensures Stream(FreshEvents(sources, tokens)) == SourcesFrame(sources) + TokenFrames(tokens) + Tail()
  {
    SourcesFrameIs(sources);
    TailIs([SourcesEvent(sources)], tokens);
  }

  /** The words of an answer: its parts between single spaces, without a space in them. */
  lemma {:induction false} Words(answer: PyString)
    ensures forall w :: w in SplitSpaces(answer) ==> 0x20 !in w
    ensures Join(Spaced(SplitSpaces(answer))) == answer + [0x20]
  {
    SpacedJoins(answer);
    if answer != [] {
      Words(answer[1..]);
    }
  }

  /** What a replay sends, byte by byte: a frame with the sources if there are any, one for each
      word and the space after it, one that says done, and the end marker. */
  lemma CachedText(sources: seq<Source>, answer: PyString)
    ensures Stream(CachedEvents(sources, answer)) ==
      (if sources == [] then "" else SourcesFrame(sources)) + TokenFrames(Spaced(SplitSpaces(answer))) + Tail()
  {
    var words := Spaced(SplitSpaces(answer));
    if sources == [] {
      TailIs([], words);
      assert [] + (TokenEvents(words) + [DONE_EVENT]) == CachedEvents(sources, answer);
    } else {
      SourcesFrameIs(sources);
      TailIs([SourcesEvent(sources)], words);
    }
  }
}
