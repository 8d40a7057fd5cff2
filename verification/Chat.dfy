/** The incremental reader of the chat page (ui/src/app/chat/page.tsx, handleSend).

    A chunk is what the text decoder returns for one read of the response body. */
module Chat {
  import opened Wrappers
  import opened Strings
  import opened Json

  /** What the page shows: the answer so far and the last sources received. */
  datatype View = View(answer: JsString, sources: Value<JsString>)

  /** The loop's variables: the view and the unfinished last line. */
  datatype Reader = Reader(view: View, buffer: string)

  const BLANK := View([], Arr([]))

  function Points(s: string): PyString {
    seq(|s|, i requires 0 <= i < |s| => s[i] as int)
  }

  /** A decoded text as a JavaScript string. */
  function Units(s: string): JsString { Utf16(Points(s)) }

  /** `text.split('\n')`. */
  function SplitLines(s: string): (lines: seq<string>)
    ensures lines != []
  {
    if s == "" then [""]
    else
      var t := SplitLines(s[1..]);
      if s[0] == '\n' then [""] + t else [[s[0]] + t[0]] + t[1..]
  }

  function Init(lines: seq<string>): seq<string>
    requires lines != []
  {
    lines[..|lines| - 1]
  }

  function Last(lines: seq<string>): string
    requires lines != []
  {
    lines[|lines| - 1]
  }

  predicate IsJsSpace(c: char) {
    var u := c as int;
    || 0x09 <= u <= 0x0D || u == 0x20 || u == 0xA0 || u == 0x1680 || 0x2000 <= u <= 0x200A
    || u == 0x2028 || u == 0x2029 || u == 0x202F || u == 0x205F || u == 0x3000 || u == 0xFEFF
  }

  function Trim(s: string): string {
    if s != "" && IsJsSpace(s[0]) then Trim(s[1..])
    else if s != "" && IsJsSpace(s[|s| - 1]) then Trim(s[..|s| - 1])
    else s
  }

  const PREFIX := "data: "
  const DONE := "[DONE]"

  predicate IsData(line: string) { PREFIX <= line }

  function Payload(line: string): string
    requires IsData(line)
  {
    Trim(line[6..])
  }

  predicate IsDone(line: string) { IsData(line) && Payload(line) == DONE }

  /** A field of a parsed object: of two with the same key the last one counts. */
  function Lookup(fields: seq<Field<JsString>>, key: JsString): Option<Value<JsString>> {
    if fields == [] then None
    else if fields[|fields| - 1].key == key then Some(fields[|fields| - 1].value)
    else Lookup(fields[..|fields| - 1], key)
  }

  /** What ECMAScript makes of values: which numbers are zero, and the text of a value that is
      no string, if it can be converted at all. */
  datatype Js = Js(isZero: string -> bool, text: Value<JsString> -> Option<JsString>)

  predicate Truthy(js: Js, v: Value<JsString>) {
    !v.Null? && !v.False? && v != Str([]) && (v.Num? ==> !js.isZero(v.lexeme))
  }

  /** The effect of a parsed event; `raw` is its text. */
  function Apply(js: Js, view: View, event: Value<JsString>, raw: JsString): View {
    if !event.Obj? then view
    else
      var kind := Lookup(event.fields, Units("type"));
      var data := Lookup(event.fields, Units("data"));
      var sources := Lookup(event.fields, Units("sources"));
      if kind == Some(Str(Units("token"))) && data.Some? && Truthy(js, data.value) then
        var text := if data.value.Str? then Some(data.value.s) else js.text(data.value);
        view.(answer := view.answer + if text.Some? then text.value else raw)
      else if kind == Some(Str(Units("sources"))) && sources.Some? && Truthy(js, sources.value) then
        view.(sources := sources.value)
      else view
  }

  /** The effect of a line other than the end marker.  Text that is not JSON, a `null`, whose
      fields cannot be read, and a token that has no text are appended as they stand. */
  function Handle(js: Js, view: View, line: string): View {
    if !IsData(line) then view
    else
      var parsed := Parse(Payload(line));
      if parsed.None? || parsed.value.Null? then view.(answer := view.answer + Units(Payload(line)))
      else Apply(js, view, parsed.value, Units(Payload(line)))
  }

  /** The inner loop: it stops at the end marker. */
  function FoldLines(js: Js, view: View, lines: seq<string>): View
    decreases |lines|
  {
    if lines == [] || IsDone(lines[0]) then view else FoldLines(js, Handle(js, view, lines[0]), lines[1..])
  }

  function Feed(js: Js, r: Reader, chunk: string): Reader {
    var lines := SplitLines(r.buffer + chunk);
    Reader(FoldLines(js, r.view, Init(lines)), Last(lines))
  }

  function FeedAll(js: Js, r: Reader, chunks: seq<string>): Reader
    decreases |chunks|
  {
    if chunks == [] then r else FeedAll(js, Feed(js, r, chunks[0]), chunks[1..])
  }

  function Flatten(chunks: seq<string>): string {
    if chunks == [] then "" else chunks[0] + Flatten(chunks[1..])
  }

  class ChatReader {
    const js: Js
    var buffer: string
    var fullAnswer: JsString
    var sources: Value<JsString>

    constructor (js: Js)
      ensures this.js == js && State() == Reader(BLANK, "")
    {
      this.js := js;
      buffer, fullAnswer, sources := "", [], Arr([]);
    }

    function State(): Reader
      reads this
    {
      Reader(View(fullAnswer, sources), buffer)
    }

    method Read(value: string)
      modifies this
      ensures State() == Feed(js, old(State()), value)
    {
      buffer := buffer + value;
      var lines := SplitLines(buffer);
      buffer := lines[|lines| - 1];
      lines := lines[..|lines| - 1];
      for i := 0 to |lines|
        invariant buffer == Last(SplitLines(old(buffer) + value))
        invariant FoldLines(js, old(State()).view, lines) == FoldLines(js, State().view, lines[i..])
      {
        var line := lines[i];
        assert lines[i..][0] == line && lines[i..][1..] == lines[i + 1..];
        if !IsData(line) {
          continue;
        }
        var data := Trim(line[6..]);
        if data == DONE {
          break;
        }
        var parsed := Parse(data);
        if parsed.None? || parsed.value.Null? {
          fullAnswer := fullAnswer + Units(data);
        } else {
          var next := Apply(js, View(fullAnswer, sources), parsed.value, Units(data));
          fullAnswer, sources := next.answer, next.sources;
        }
      }
    }

    /** The outer loop, over the reads of a whole response. */
    method ReadAll(chunks: seq<string>)
      modifies this
      ensures State() == FeedAll(js, old(State()), chunks)
    {
      for i := 0 to |chunks|
        invariant FeedAll(js, old(State()), chunks) == FeedAll(js, State(), chunks[i..])
      {
        assert chunks[i..][0] == chunks[i] && chunks[i..][1..] == chunks[i + 1..];
        Read(chunks[i]);
      }
    }
  }

  // ---------------------------------------------------------------- what one line does

  /** The white space and line terminators of ECMA-262. */
  const WHITE_SPACE := {0x09, 0x0A, 0x0B, 0x0C, 0x0D, 0x20, 0xA0, 0x1680, 0x2000, 0x2001, 0x2002, 0x2003, 0x2004,
                        0x2005, 0x2006, 0x2007, 0x2008, 0x2009, 0x200A, 0x2028, 0x2029, 0x202F, 0x205F, 0x3000, 0xFEFF}

  lemma WhiteSpace(c: char)
    ensures IsJsSpace(c) <==> c as int in WHITE_SPACE
  {
  }

  /** Trimming takes all white space from both ends and nothing else. */
  lemma {:induction false} TrimIs(s: string) returns (before: string, after: string)
    ensures s == before + Trim(s) + after
    ensures forall c :: c in before || c in after ==> IsJsSpace(c)
    ensures Trim(s) != "" ==> !IsJsSpace(Trim(s)[0]) && !IsJsSpace(Trim(s)[|Trim(s)| - 1])
    decreases |s|
  {
    hide IsJsSpace;
    before, after := "", "";
    if s != "" && IsJsSpace(s[0]) {
      var b, a := TrimIs(s[1..]);
      before, after := [s[0]] + b, a;
      Front([s[0]], s[1..], b, Trim(s), a);
      assert s == [s[0]] + s[1..];
    } else if s != "" && IsJsSpace(s[|s| - 1]) {
      var b, a := TrimIs(s[..|s| - 1]);
      before, after := b, a + [s[|s| - 1]];
      Assoc(b + Trim(s), a, [s[|s| - 1]]);
      assert s == s[..|s| - 1] + [s[|s| - 1]];
    } else {
      assert s == "" + s + "";
    }
  }

  lemma Front(first: string, s: string, before: string, middle: string, after: string)
    requires s == before + middle + after
    ensures first + s == first + before + middle + after
  {
  }

  /** The prefix and the end marker, literally. */
  lemma MarkerLines(line: string)
    ensures IsData(line) <==> |line| >= 6 && line[..6] == "data: "
    ensures IsDone(line) <==> |line| >= 6 && line[..6] == "data: " && Trim(line[6..]) == "[DONE]"
  {
  }

  /** Of fields with the same key the last one is read. */
  lemma {:induction false} LastFieldCounts(fields: seq<Field<JsString>>, key: JsString, i: nat)
    requires i < |fields| && fields[i].key == key && forall j :: i < j < |fields| ==> fields[j].key != key
    ensures Lookup(fields, key) == Some(fields[i].value)
    decreases |fields|
  {
    if i < |fields| - 1 {
      LastFieldCounts(fields[..|fields| - 1], key, i);
    }
  }

  lemma {:induction false} NoFieldFound(fields: seq<Field<JsString>>, key: JsString)
    requires forall j :: 0 <= j < |fields| ==> fields[j].key != key
    ensures Lookup(fields, key) == None
  {
    if fields != [] {
      NoFieldFound(fields[..|fields| - 1], key);
    }
  }

  predicate Falsy(js: Js, v: Value<JsString>) {
    v == Null || v == False || v == Str([]) || (v.Num? && js.isZero(v.lexeme))
  }

  /** A token is appended as text, or the event as it stands if the data has none; an event
      without data, or with falsy data, is ignored. */
  lemma TokenEffect(js: Js, view: View, event: Value<JsString>, raw: JsString)
    requires event.Obj? && Lookup(event.fields, Units("type")) == Some(Str(Units("token")))
    ensures match Lookup(event.fields, Units("data"))
      case None => Apply(js, view, event, raw) == view
      case Some(data) =>
        var text := if data.Str? then data.s else if js.text(data).Some? then js.text(data).value else raw;
        Apply(js, view, event, raw) == if Falsy(js, data) then view else View(view.answer + text, view.sources)
  {
    KindsDiffer();
  }

  /** Sources replace those shown, the empty list as well; falsy sources are ignored. */
  lemma SourcesEffect(js: Js, view: View, event: Value<JsString>, raw: JsString)
    requires event.Obj? && Lookup(event.fields, Units("type")) == Some(Str(Units("sources")))
    ensures match Lookup(event.fields, Units("sources"))
      case None => Apply(js, view, event, raw) == view
      case Some(sources) =>
        Apply(js, view, event, raw) == if Falsy(js, sources) then view else View(view.answer, sources)
  {
    KindsDiffer();
  }

  /** Every other event is ignored. */
  lemma NoEffect(js: Js, view: View, event: Value<JsString>, raw: JsString)
    requires event.Obj? ==>
      var kind := Lookup(event.fields, Units("type"));
      kind != Some(Str(Units("token"))) && kind != Some(Str(Units("sources")))
    ensures Apply(js, view, event, raw) == view
  {
  }

  lemma KindsDiffer()
    ensures Units("token") != Units("sources")
  {
    assert Utf16(Points("token"))[0] == 't' as int && Utf16(Points("sources"))[0] == 's' as int;
  }

  /** What a line does: lines without the prefix are ignored, data that is no JSON or a null is
      appended as it stands, and any other data takes effect as an event. */
  lemma LineEffect(js: Js, view: View, line: string)
    ensures !(|line| >= 6 && line[..6] == "data: ") ==> Handle(js, view, line) == view
    ensures |line| >= 6 && line[..6] == "data: " ==>
      var data := Trim(line[6..]);
      match Parse(data)
      case None => Handle(js, view, line) == View(view.answer + Units(data), view.sources)
      case Some(event) =>
        if event == Null then Handle(js, view, line) == View(view.answer + Units(data), view.sources)
        else Handle(js, view, line) == Apply(js, view, event, Units(data))
  {
    MarkerLines(line);
  }

  /** The units of a text stand for its characters. */
  lemma UnitsAre(s: string)
    ensures FromUtf16(Units(s)) == seq(|s|, i requires 0 <= i < |s| => s[i] as int)
  {
    forall c | c in Points(s) ensures !(0xD800 <= c < 0xE000) {
      var i :| 0 <= i < |s| && Points(s)[i] == c;
    }
    Utf16RoundTrip(Points(s));
  }

  // ---------------------------------------------------------------- segmentation

  /** All lines, the end marker having no effect. */
  function FoldAll(js: Js, view: View, lines: seq<string>): View
    decreases |lines|
  {
    if lines == [] then view
    else FoldAll(js, if IsDone(lines[0]) then view else Handle(js, view, lines[0]), lines[1..])
  }

  /** Nothing is sent after the end marker. */
  ghost predicate NothingAfterDone(lines: seq<string>) {
    forall i, j :: 0 <= i < j < |lines| && IsDone(lines[i]) ==> !IsData(lines[j])
  }

  lemma {:induction false} FoldAppend(js: Js, view: View, a: seq<string>, b: seq<string>)
    ensures FoldAll(js, view, a + b) == FoldAll(js, FoldAll(js, view, a), b)
    decreases |a|
  {
    if a == [] {
      assert a + b == b;
    } else {
      assert (a + b)[1..] == a[1..] + b;
      FoldAppend(js, if IsDone(a[0]) then view else Handle(js, view, a[0]), a[1..], b);
    }
  }

  lemma {:induction false} FoldSilent(js: Js, view: View, lines: seq<string>)
    requires forall i :: 0 <= i < |lines| ==> !IsData(lines[i])
    ensures FoldAll(js, view, lines) == view
  {
    if lines != [] {
      FoldSilent(js, view, lines[1..]);
    }
  }

  lemma {:induction false} StoppingIsHarmless(js: Js, view: View, lines: seq<string>)
    requires NothingAfterDone(lines)
    ensures FoldLines(js, view, lines) == FoldAll(js, view, lines)
    decreases |lines|
  {
    if lines != [] {
      if IsDone(lines[0]) {
        FoldSilent(js, view, lines[1..]);
      } else {
        StoppingIsHarmless(js, Handle(js, view, lines[0]), lines[1..]);
      }
    }
  }

  /** Splitting in two steps, carrying the unfinished line over, is splitting at once. */
  lemma {:induction false} SplitAppend(a: string, b: string)
    ensures SplitLines(a + b) == Init(SplitLines(a)) + SplitLines(Last(SplitLines(a)) + b)
  {
    if a == "" {
      assert a + b == b;
    } else {
      var c, t := a[0], a[1..];
      assert [c] + t == a && [c] + (t + b) == a + b;
      SplitAppend(t, b);
      SplitStep(c, t);
      SplitStep(c, t + b);
      if c == '\n' {
        NewlineFirst(SplitLines(t), SplitLines(Last(SplitLines(t)) + b));
      } else if |SplitLines(t)| == 1 {
        SplitOne(t);
        NoLineYet(a, b);
      } else {
        LetterFirst(c, SplitLines(t), SplitLines(Last(SplitLines(t)) + b));
      }
    }
  }

  lemma NewlineFirst(s: seq<string>, more: seq<string>)
    requires s != []
    ensures [""] + (Init(s) + more) == Init([""] + s) + more && Last([""] + s) == Last(s)
  {
  }

  lemma LetterFirst(c: char, s: seq<string>, more: seq<string>)
    requires |s| > 1
    ensures var all := Init(s) + more; [[c] + all[0]] + all[1..] == Init([[c] + s[0]] + s[1..]) + more
    ensures Last([[c] + s[0]] + s[1..]) == Last(s)
  {
  }

  lemma NoLineYet(a: string, b: string)
    requires SplitLines(a) == [a]
    ensures Init(SplitLines(a)) + SplitLines(Last(SplitLines(a)) + b) == SplitLines(a + b)
  {
    assert Init([a]) == [];
  }

  lemma SplitStep(c: char, s: string)
    ensures SplitLines([c] + s) ==
      if c == '\n' then [""] + SplitLines(s) else [[c] + SplitLines(s)[0]] + SplitLines(s)[1..]
  {
    assert ([c] + s)[1..] == s;
  }

  lemma {:induction false} SplitOne(s: string)
    requires |SplitLines(s)| == 1
    ensures SplitLines(s) == [s]
  {
    if s != "" {
      SplitOne(s[1..]);
      assert [s[0]] + s[1..] == s;
    }
  }

  lemma {:induction false} LastIsLine(s: string)
    ensures SplitLines(Last(SplitLines(s))) == [Last(SplitLines(s))]
  {
    if |SplitLines(s)| == 1 {
      SplitOne(s);
    } else {
      LastIsLine(s[1..]);
    }
  }

  /** However the text is cut into reads, the page ends as if it had processed the
      complete lines of the whole text, provided nothing follows the end marker. */
  lemma {:induction false} AnySegmentation(js: Js, r: Reader, chunks: seq<string>)
    requires SplitLines(r.buffer) == [r.buffer]
    requires NothingAfterDone(Init(SplitLines(r.buffer + Flatten(chunks))))
    ensures var lines := SplitLines(r.buffer + Flatten(chunks));
      FeedAll(js, r, chunks) == Reader(FoldAll(js, r.view, Init(lines)), Last(lines))
    decreases |chunks|
  {
    if chunks == [] {
      assert r.buffer + Flatten(chunks) == r.buffer;
    } else {
      var text, rest := r.buffer + chunks[0], Flatten(chunks[1..]);
      var first, last := Init(SplitLines(text)), Last(SplitLines(text));
      assert r.buffer + Flatten(chunks) == text + rest;
      SplitAppend(text, rest);
      var more := SplitLines(last + rest);
      assert Init(SplitLines(text + rest)) == first + Init(more);
      Inherit(first, Init(more));
      StoppingIsHarmless(js, r.view, first);
      LastIsLine(text);
      AnySegmentation(js, Feed(js, r, chunks[0]), chunks[1..]);
      FoldAppend(js, r.view, first, Init(more));
    }
  }

  lemma Inherit(a: seq<string>, b: seq<string>)
    requires NothingAfterDone(a + b)
    ensures NothingAfterDone(a) && NothingAfterDone(b)
  {
    forall i, j | 0 <= i < j < |a| && IsDone(a[i]) ensures !IsData(a[j]) {
      assert (a + b)[i] == a[i] && (a + b)[j] == a[j];
    }
    forall i, j | 0 <= i < j < |b| && IsDone(b[i]) ensures !IsData(b[j]) {
      assert (a + b)[|a| + i] == b[i] && (a + b)[|a| + j] == b[j];
    }
  }

  lemma {:induction false} SplitLine(line: string, rest: string)
    requires '\n' !in line
    ensures SplitLines(line + (['\n'] + rest)) == [line] + SplitLines(rest)
  {
    if line == "" {
      assert line + (['\n'] + rest) == ['\n'] + rest;
      assert (['\n'] + rest)[1..] == rest;
    } else {
      assert [line[0]] + line[1..] == line;
      assert line + (['\n'] + rest) == [line[0]] + (line[1..] + (['\n'] + rest));
      SplitLine(line[1..], rest);
      SplitStep(line[0], line[1..] + (['\n'] + rest));
    }
  }

  // ---------------------------------------------------------------- the end marker

  ghost predicate NoBreaks(lines: seq<string>) { forall i :: 0 <= i < |lines| ==> '\n' !in lines[i] }

  ghost predicate NoMarker(lines: seq<string>) { forall i :: 0 <= i < |lines| ==> !IsDone(lines[i]) }

  lemma {:induction false} FoldStops(js: Js, view: View, a: seq<string>, marker: string, b: seq<string>)
    requires NoMarker(a) && IsDone(marker)
    ensures FoldLines(js, view, a + [marker] + b) == FoldLines(js, view, a)
    decreases |a|
  {
    if a != [] {
      assert (a + [marker] + b)[1..] == a[1..] + [marker] + b;
      FoldStops(js, Handle(js, view, a[0]), a[1..], marker, b);
    }
  }

  /** The proviso of `AnySegmentation` is needed: in any state and for any further reads, the
      end marker hides the lines after it in its own read, and nothing that arrives later. */
  lemma DoneStopsOnlyItsChunk(js: Js, r: Reader, chunk: string,
                              a: seq<string>, marker: string, b: seq<string>, later: seq<string>)
    requires Init(SplitLines(r.buffer + chunk)) == a + [marker] + b
    requires NoMarker(a) && IsDone(marker)
    ensures FeedAll(js, r, [chunk] + later) ==
      FeedAll(js, Reader(FoldLines(js, r.view, a), Last(SplitLines(r.buffer + chunk))), later)
  {
    assert ([chunk] + later)[1..] == later;
    FoldStops(js, r.view, a, marker, b);
  }

  /** The text of some lines. */
  function Unlines(lines: seq<string>): string {
    if lines == [] then "" else lines[0] + (['\n'] + Unlines(lines[1..]))
  }

  lemma {:induction false} SplitAfter(lines: seq<string>, rest: string)
    requires NoBreaks(lines)
    ensures SplitLines(Unlines(lines) + rest) == lines + SplitLines(rest)
  {
    if lines == [] {
      assert Unlines(lines) + rest == rest;
    } else {
      var more := Unlines(lines[1..]);
      Regroup(lines[0], ['\n'], more, rest);
      SplitAfter(lines[1..], rest);
      SplitLine(lines[0], more + rest);
      hide SplitLines;
      assert lines == [lines[0]] + lines[1..];
    }
  }

  /** What is left to come of a text after its first j characters: the lines that were not
      complete there. */
  lemma SplitAt(text: string, j: nat)
    requires j <= |text|
    ensures var all, read := SplitLines(text), SplitLines(text[..j]);
      && |read| <= |all| && Init(read) == all[..|read| - 1]
      && SplitLines(Last(read) + text[j..]) == all[|read| - 1..]
  {
    var read := SplitLines(text[..j]);
    var more := SplitLines(Last(read) + text[j..]);
    assert text[..j] + text[j..] == text;
    SplitAppend(text[..j], text[j..]);
    assert (Init(read) + more)[..|read| - 1] == Init(read) && (Init(read) + more)[|read| - 1..] == more;
  }

  lemma FeedOne(js: Js, r: Reader, chunk: string)
    ensures FeedAll(js, r, [chunk]) == Feed(js, r, chunk)
  {
    assert [chunk][1..] == [];
  }

  /** Wherever the text after the end marker is cut, even inside a line, of its lines exactly
      those count whose end arrives in the later read. */
  lemma LaterLinesCount(js: Js, view: View, a: seq<string>, marker: string, rest: string, j: nat)
    requires NoBreaks(a) && '\n' !in marker && NoMarker(a) && IsDone(marker) && j <= |rest|
    ensures var all, k := SplitLines(rest), |SplitLines(rest[..j])| - 1;
      && k < |all|
      && FeedAll(js, Reader(view, ""), [Unlines(a + [marker]) + rest[..j]] + [rest[j..]]) ==
           Reader(FoldLines(js, FoldLines(js, view, a), Init(all)[k..]), Last(all))
  {
    hide FeedAll, FoldLines, SplitLines, Unlines, IsDone;
    var head, all, read := Unlines(a + [marker]), SplitLines(rest), SplitLines(rest[..j]);
    var first, k := head + rest[..j], |read| - 1;
    SplitAfter(a + [marker], rest[..j]);
    assert "" + first == first;
    assert Init(a + [marker] + read) == a + [marker] + Init(read) && Last(a + [marker] + read) == Last(read);
    DoneStopsOnlyItsChunk(js, Reader(view, ""), first, a, marker, Init(read), [rest[j..]]);
    SplitAt(rest, j);
    FeedOne(js, Reader(FoldLines(js, view, a), Last(read)), rest[j..]);
    assert Init(all[k..]) == Init(all)[k..] && Last(all[k..]) == Last(all);
  }
}
