/**
 The incremental decoder of server-sent events: chunks are appended to a buffer, whole
 lines are consumed with a cursor, and the consumed part is dropped once per chunk.
 */
module Sse {
  import opened Options

  const MAX_LINE_BYTES: nat := 1024 * 1024

  datatype Event = Event(event: Option<string>, data: string)

  /** What the byte stream delivers: text (already decoded) or a transport error. */
  datatype Input =
    | Chunk(text: string)
    | Broken(message: string)

  /** What the decoder yields. */
  datatype Output =
    | Item(e: Event)
    | TooLong
    | Network(message: string)

  // ---------------------------------------------------------------------------
  // Characters and lines
  // ---------------------------------------------------------------------------

  /** Characters with the Unicode White_Space property. */
  predicate IsWhite(c: char) {
    var n := c as int;
    || 0x9 <= n <= 0xD
    || n == 0x20 || n == 0x85 || n == 0xA0 || n == 0x1680
    || 0x2000 <= n <= 0x200A
    || n == 0x2028 || n == 0x2029 || n == 0x202F || n == 0x205F || n == 0x3000
  }

  function TrimStart(s: string): string {
    if s != [] && IsWhite(s[0]) then TrimStart(s[1..]) else s
  }

  function TrimEnd(s: string): string {
    if s != [] && IsWhite(s[|s| - 1]) then TrimEnd(s[..|s| - 1]) else s
  }

  function Trim(s: string): string {
    TrimEnd(TrimStart(s))
  }

  /** Bytes a character takes in UTF-8. */
  function Width(c: char): nat {
    var n := c as int;
    if n < 0x80 then 1 else if n < 0x800 then 2 else if n < 0x10000 then 3 else 4
  }

  function ByteLength(s: string): nat {
    if s == [] then 0 else Width(s[0]) + ByteLength(s[1..])
  }

  /** The position of the first newline from `i` on, or the length if there is none. */
  function NewlineFrom(s: string, i: nat): (p: nat)
    requires i <= |s|
    ensures i <= p <= |s|
    decreases |s| - i
  {
    if i == |s| || s[i] == '\n' then i else NewlineFrom(s, i + 1)
  }

  function NewlineAt(s: string): (p: nat)
    ensures p <= |s|
  {
    NewlineFrom(s, 0)
  }

  lemma {:induction false} NewlineFromIsFirst(s: string, i: nat)
    requires i <= |s|
    ensures var p := NewlineFrom(s, i);
            && (p < |s| ==> s[p] == '\n')
            && forall j :: i <= j < p ==> s[j] != '\n'
    decreases |s| - i
  {
    if i < |s| && s[i] != '\n' {
      NewlineFromIsFirst(s, i + 1);
    }
  }

  /** It is indeed the first newline. */
  lemma NewlineIsFirst(s: string)
    ensures var p := NewlineAt(s);
            && (p < |s| ==> s[p] == '\n')
            && forall i :: 0 <= i < p ==> s[i] != '\n'
  {
    NewlineFromIsFirst(s, 0);
  }

  /** The newline-terminated lines of a text. */
  function Lines(text: string): seq<string>
    decreases |text|
  {
    var p := NewlineAt(text);
    if p == |text| then [] else [text[..p]] + Lines(text[p + 1..])
  }

  /** What follows the last newline. */
  function Rest(text: string): string
    decreases |text|
  {
    var p := NewlineAt(text);
    if p == |text| then text else Rest(text[p + 1..])
  }

  // ---------------------------------------------------------------------------
  // The line-by-line meaning of a stream
  // ---------------------------------------------------------------------------

  const EVENT_FIELD := "event:"
  const DATA_FIELD := "data:"
  const DONE := "[DONE]"

  datatype Meaning =
    | Blank
    | EventType(name: string)
    | Data(payload: string)
    | Stop
    | Other

  function MeaningOf(rawLine: string): Meaning {
    var line := Trim(rawLine);
    if line == [] then Blank
    else if EVENT_FIELD <= line then EventType(TrimStart(line[|EVENT_FIELD|..]))
    else if DATA_FIELD <= line then
      var payload := TrimStart(line[|DATA_FIELD|..]);
      if payload == DONE then Stop else Data(payload)
    else Other
  }

  datatype Folded = Folded(events: seq<Event>, current: Option<string>, done: bool)

  /** One event per data line, tagged with the event type last named since a blank line. */
  function Fold(lines: seq<string>, current: Option<string>): Folded {
    if lines == [] then Folded([], current, false) else
      match MeaningOf(lines[0])
      case Blank => Fold(lines[1..], None)
      case EventType(name) => Fold(lines[1..], Some(name))
      case Data(payload) =>
        var f := Fold(lines[1..], current);
        f.(events := [Event(current, payload)] + f.events)
      case Stop => Folded([], current, true)
      case Other => Fold(lines[1..], current)
  }

  /** The meaning of a whole text. */
  function Whole(text: string): Folded {
    Fold(Lines(text), None)
  }

  function Items(es: seq<Event>): seq<Output> {
    seq(|es|, i requires 0 <= i < |es| => Item(es[i]))
  }

  lemma ItemsConcat(a: seq<Event>, b: seq<Event>)
    ensures Items(a + b) == Items(a) + Items(b)
  {
  }

  // ---------------------------------------------------------------------------
  // The decoder
  // ---------------------------------------------------------------------------

  /** The outputs still to come when `buffer` is held and `current` is the event type. */
  function DecodeFrom(inputs: seq<Input>, buffer: string, current: Option<string>): seq<Output>
    decreases |inputs|, 0
  {
    if inputs == [] then [] else
      match inputs[0]
      case Broken(message) => [Network(message)] + DecodeFrom(inputs[1..], buffer, current)
      case Chunk(text) =>
        var f := Fold(Lines(buffer + text), current);
        Items(f.events) + AfterLines(inputs[1..], f, Rest(buffer + text))
  }

  /** What follows once the whole lines of a chunk are consumed and `rest` is left over. */
  function AfterLines(inputs: seq<Input>, f: Folded, rest: string): seq<Output>
    decreases |inputs|, 1
  {
    if f.done then []
    else if ByteLength(rest) > MAX_LINE_BYTES then [TooLong]
    else DecodeFrom(inputs, rest, f.current)
  }

  lemma NextLine(text: string, p: nat)
    requires p == NewlineAt(text) < |text|
    ensures Lines(text) == [text[..p]] + Lines(text[p + 1..])
    ensures Rest(text) == Rest(text[p + 1..])
  {
  }

  /** What one line does: the event type afterwards, what it yields, whether it stops the stream. */
  datatype Effect = Effect(current: Option<string>, events: seq<Event>, stop: bool)

  function EffectOf(m: Meaning, current: Option<string>): Effect {
    match m
    case Blank => Effect(None, [], false)
    case EventType(name) => Effect(Some(name), [], false)
    case Data(payload) => Effect(current, [Event(current, payload)], false)
    case Stop => Effect(current, [], true)
    case Other => Effect(current, [], false)
  }

  lemma FoldNext(rawLine: string, lines: seq<string>, current: Option<string>)
    ensures var e := EffectOf(MeaningOf(rawLine), current);
            Fold([rawLine] + lines, current) ==
            if e.stop then Folded([], current, true) else Behind(e.events, Fold(lines, e.current))
  {
    assert ([rawLine] + lines)[1..] == lines;
  }

  /** `f` with the events of earlier lines put in front. */
  function Behind(events: seq<Event>, f: Folded): Folded {
    f.(events := events + f.events)
  }

  lemma BehindBoth(a: seq<Event>, b: seq<Event>, f: Folded)
    ensures Behind(a, Behind(b, f)) == Behind(a + b, f)
    ensures Items(a + b) == Items(a) + Items(b)
  {
    assert a + (b + f.events) == (a + b) + f.events;
  }

  /** Taking the first line off what is left brings the fold one line further. */
  lemma LineConsumed(whole: Folded, events: seq<Event>, current: Option<string>, left: string, p: nat)
    requires p == NewlineAt(left) < |left|
    requires Behind(events, Fold(Lines(left), current)) == whole
    ensures Rest(left[p + 1..]) == Rest(left)
    ensures var e := EffectOf(MeaningOf(left[..p]), current);
            if e.stop then Folded(events, current, true) == whole
            else Behind(events + e.events, Fold(Lines(left[p + 1..]), e.current)) == whole
  {
    NextLine(left, p);
    FoldNext(left[..p], Lines(left[p + 1..]), current);
    var e := EffectOf(MeaningOf(left[..p]), current);
    if e.stop {
      assert events + [] == events;
    } else {
      BehindBoth(events, e.events, Fold(Lines(left[p + 1..]), e.current));
    }
  }

  // ---------------------------------------------------------------------------
  // What a line looks like
  // ---------------------------------------------------------------------------

  predicate White(s: string) {
    forall i :: 0 <= i < |s| ==> IsWhite(s[i])
  }

  /** Neither end is whitespace. */
  predicate Bare(s: string) {
    s == "" || (!IsWhite(s[0]) && !IsWhite(s[|s| - 1]))
  }

  /** The field's name, then its value, with whitespace around both. */
  ghost predicate IsField(line: string, field: string, value: string) {
    Bare(value) && exists w, v, u :: White(w) && White(v) && White(u) && line == Padded(w, field, v, value, u)
  }

  function Padded(w: string, field: string, v: string, value: string, u: string): string {
    w + (field + (v + (value + u)))
  }

  /** Among ASCII characters these six are whitespace; a zero-width space is not. */
  lemma WhiteAscii(c: char)
    ensures c as int < 128 ==>
              (IsWhite(c) <==> c == ' ' || c == '\t' || c == '\n' || c == '\r' || c as int == 11 || c as int == 12)
    ensures IsWhite(0x85 as char) && IsWhite(0xA0 as char) && IsWhite(0x3000 as char) && !IsWhite(0x200B as char)
  {
  }

  lemma {:induction false} TrimStartDrops(w: string, s: string)
    requires White(w)
    ensures TrimStart(w + s) == TrimStart(s)
    decreases |w|
  {
    if w == "" {
      assert w + s == s;
    } else {
      assert (w + s)[0] == w[0] && (w + s)[1..] == w[1..] + s;
      TrimStartDrops(w[1..], s);
    }
  }

  lemma {:induction false} TrimEndDrops(s: string, u: string)
    requires White(u)
    ensures TrimEnd(s + u) == TrimEnd(s)
    decreases |u|
  {
    if u == "" {
      assert s + u == s;
    } else {
      var l := |u| - 1;
      assert (s + u)[|s + u| - 1] == u[l] && (s + u)[..|s + u| - 1] == s + u[..l];
      TrimEndDrops(s, u[..l]);
    }
  }

  /** Whitespace around a bare text is what trimming takes off. */
  lemma TrimLeavesBare(w: string, s: string, u: string)
    requires White(w) && White(u) && Bare(s)
    ensures Trim(w + (s + u)) == s
  {
    TrimStartDrops(w, s + u);
    if s == "" {
      assert s + u == u && u + "" == u;
      TrimStartDrops(u, "");
    } else {
      assert (s + u)[0] == s[0];
      TrimEndDrops(s, u);
    }
  }

  lemma Whites(a: string, b: string)
    requires White(a) && White(b)
    ensures White(a + b)
  {
  }

  lemma Regroup(s: string, a: string, b: string)
    requires s != "" && s[1..] == a + b
    ensures s == ([s[0]] + a) + b
  {
  }

  lemma {:induction false} TrimStartCuts(s: string) returns (w: string)
    ensures White(w) && s == w + TrimStart(s)
    ensures TrimStart(s) == "" || !IsWhite(TrimStart(s)[0])
    decreases |s|
  {
    if s != "" && IsWhite(s[0]) {
      var rest := TrimStartCuts(s[1..]);
      w := [s[0]] + rest;
      Whites([s[0]], rest);
      Regroup(s, rest, TrimStart(s[1..]));
    } else {
      w := "";
    }
  }

  lemma {:induction false} TrimEndCuts(s: string) returns (u: string)
    ensures White(u) && s == TrimEnd(s) + u
    ensures TrimEnd(s) == "" || !IsWhite(TrimEnd(s)[|TrimEnd(s)| - 1])
    ensures TrimEnd(s) != "" ==> TrimEnd(s)[0] == s[0]
    decreases |s|
  {
    if s != "" && IsWhite(s[|s| - 1]) {
      var l := |s| - 1;
      var rest := TrimEndCuts(s[..l]);
      u := rest + [s[l]];
      Whites(rest, [s[l]]);
      assert s == s[..l] + [s[l]];
    } else {
      u := "";
      assert s + u == s;
    }
  }

  /** Every line is a bare text with whitespace around it. */
  lemma TrimCuts(line: string) returns (w: string, u: string)
    ensures White(w) && White(u) && Bare(Trim(line)) && line == w + (Trim(line) + u)
  {
    w := TrimStartCuts(line);
    u := TrimEndCuts(TrimStart(line));
  }

  lemma WhiteIffTrimmedAway(line: string)
    ensures White(line) <==> Trim(line) == ""
  {
    if White(line) {
      TrimLeavesBare(line, "", "");
      assert line + ("" + "") == line;
    }
    var w, u := TrimCuts(line);
    if Trim(line) == "" {
      assert line == w + u;
    }
  }

  lemma BodyPadded(w: string, field: string, v: string, value: string, u: string)
    ensures Padded(w, field, v, value, u) == w + ((field + (v + value)) + u)
  {
    assert field + (v + (value + u)) == (field + (v + value)) + u;
  }

  /** A field's line, trimmed, is its name and, after further whitespace, its value. */
  lemma FieldTrimmed(line: string, field: string, value: string)
    requires IsField(line, field, value) && field != "" && Bare(field)
    ensures field <= Trim(line) && TrimStart(Trim(line)[|field|..]) == value
  {
    var w, v, u :| White(w) && White(v) && White(u) && line == Padded(w, field, v, value, u);
    if value == "" {
      assert value + u == u;
      Whites(v, u);
      TrimLeavesBare(w, field, v + u);
      assert field[|field|..] == "";
    } else {
      var body := field + (v + value);
      BodyPadded(w, field, v, value, u);
      assert body[0] == field[0] && body[|body| - 1] == value[|value| - 1];
      TrimLeavesBare(w, body, u);
      assert body[|field|..] == v + value;
      TrimStartDrops(v, value);
    }
  }

  /** And a trimmed line that starts with the name is such a line. */
  lemma TrimmedField(line: string, field: string)
    requires field <= Trim(line) && field != ""
    ensures IsField(line, field, TrimStart(Trim(line)[|field|..]))
  {
    var w, u := TrimCuts(line);
    var rest := Trim(line)[|field|..];
    var v := TrimStartCuts(rest);
    var value := TrimStart(rest);
    LastOfSuffix(Trim(line), field, v, value);
    PaddedRegroup(line, w, Trim(line), u, field, v, value);
  }

  lemma LastOfSuffix(text: string, field: string, v: string, value: string)
    requires field <= text && text[|field|..] == v + value
    ensures text == field + (v + value)
    ensures value != "" ==> value[|value| - 1] == text[|text| - 1]
  {
    assert text == field + text[|field|..];
  }

  lemma PaddedRegroup(line: string, w: string, text: string, u: string, field: string, v: string, value: string)
    requires line == w + (text + u) && text == field + (v + value)
    ensures line == Padded(w, field, v, value, u)
  {
    assert text + u == field + (v + (value + u));
  }

  /** The four kinds of lines, told by how they look. */
  lemma LineInWords(rawLine: string, current: Option<string>)
    ensures var e := EffectOf(MeaningOf(rawLine), current);
            && (White(rawLine) ==> e == Effect(None, [], false))
            && (forall p :: IsField(rawLine, "data:", p) ==>
                  e == if p == "[DONE]" then Effect(current, [], true) else Effect(current, [Event(current, p)], false))
            && (forall name :: IsField(rawLine, "event:", name) ==> e == Effect(Some(name), [], false))
            && (!White(rawLine) && (forall p :: !IsField(rawLine, "data:", p) && !IsField(rawLine, "event:", p)) ==>
                  e == Effect(current, [], false))
  {
    var e := EffectOf(MeaningOf(rawLine), current);
    WhiteIffTrimmedAway(rawLine);
    forall p | IsField(rawLine, "data:", p)
      ensures e == if p == "[DONE]" then Effect(current, [], true) else Effect(current, [Event(current, p)], false)
    {
      FieldTrimmed(rawLine, "data:", p);
      assert Trim(rawLine)[0] == 'd';
    }
    forall name | IsField(rawLine, "event:", name) ensures e == Effect(Some(name), [], false) {
      FieldTrimmed(rawLine, "event:", name);
    }
    if "data:" <= Trim(rawLine) {
      TrimmedField(rawLine, "data:");
    }
    if "event:" <= Trim(rawLine) {
      TrimmedField(rawLine, "event:");
    }
  }

  method HandleLine(rawLine: string, current: Option<string>) returns (e: Effect)
    ensures e == EffectOf(MeaningOf(rawLine), current)
    ensures White(rawLine) ==> e == Effect(None, [], false)
    ensures forall p :: IsField(rawLine, "data:", p) ==>
              e == if p == "[DONE]" then Effect(current, [], true) else Effect(current, [Event(current, p)], false)
    ensures forall name :: IsField(rawLine, "event:", name) ==> e == Effect(Some(name), [], false)
    ensures !White(rawLine) && (forall p :: !IsField(rawLine, "data:", p) && !IsField(rawLine, "event:", p)) ==>
              e == Effect(current, [], false)
  {
    LineInWords(rawLine, current);
    var line := Trim(rawLine);
    if line == [] {
      return Effect(None, [], false);
    }
    if EVENT_FIELD <= line {
      return Effect(Some(TrimStart(line[|EVENT_FIELD|..])), [], false);
    }
    if DATA_FIELD <= line {
      var data := TrimStart(line[|DATA_FIELD|..]);
      if data == DONE {
        return Effect(current, [], true);
      }
      return Effect(current, [Event(current, data)], false);
    }
    return Effect(current, [], false);
  }

  /**
   Consume the whole lines of `buffer`: what is yielded, the event type afterwards, how
   far the cursor got, and whether the stream was stopped.
   */
  method ConsumeLines(buffer: string, start: Option<string>)
    returns (events: seq<Event>, current: Option<string>, consumed: nat, done: bool)
    ensures consumed <= |buffer|
    ensures Folded(events, current, done) == Fold(Lines(buffer), start)
    ensures !done ==> buffer[consumed..] == Rest(buffer)
  {
    events, current, consumed, done := [], start, 0, false;
    ghost var whole := Fold(Lines(buffer), start);
    ghost var left := buffer;
    var relPos := NewlineAt(buffer);
    while relPos < |buffer| - consumed
      invariant consumed <= |buffer| && left == buffer[consumed..] && !done
      invariant relPos == NewlineAt(left)
      invariant Behind(events, Fold(Lines(left), current)) == whole
      invariant Rest(left) == Rest(buffer)
      decreases |buffer| - consumed
    {
      var rawLine := buffer[consumed..consumed + relPos];
      assert rawLine == left[..relPos] && left[relPos + 1..] == buffer[consumed + relPos + 1..];
      LineConsumed(whole, events, current, left, relPos);
      consumed := consumed + relPos + 1;
      left := left[relPos + 1..];

      var e := HandleLine(rawLine, current);
      if e.stop {
        done := true;
        return;
      }
      current, events := e.current, events + e.events;
      relPos := NewlineAt(buffer[consumed..]);
    }
  }

  lemma DecodeNext(inputs: seq<Input>, buffer: string, current: Option<string>, i: nat)
    requires i < |inputs|
    ensures inputs[i].Broken? ==>
              DecodeFrom(inputs[i..], buffer, current)
              == [Network(inputs[i].message)] + DecodeFrom(inputs[i + 1..], buffer, current)
    ensures inputs[i].Chunk? ==>
              var text := buffer + inputs[i].text;
              var f := Fold(Lines(text), current);
              DecodeFrom(inputs[i..], buffer, current)
              == Items(f.events) + AfterLines(inputs[i + 1..], f, Rest(text))
  {
    assert inputs[i..][0] == inputs[i] && inputs[i..][1..] == inputs[i + 1..];
  }

  lemma Associative(a: seq<Output>, b: seq<Output>, c: seq<Output>)
    ensures (a + b) + c == a + (b + c)
  {
  }

  lemma FirstLine(text: string, line: string, rest: string)
    requires text == line + (['\n'] + rest) && '\n' !in line
    ensures Lines(text) == [line] + Lines(rest)
  {
    var p := |line|;
    NewlineIs(text, p);
    NextLine(text, p);
    assert text[..p] == line && text[p + 1..] == rest;
  }

  lemma MarkerStops(line: string, lines: seq<string>)
    requires IsField(line, "data:", "[DONE]")
    ensures Fold([line] + lines, None) == Folded([], None, true)
  {
    LineInWords(line, None);
    FoldNext(line, lines, None);
  }

  /** A stream whose first line is the end marker yields nothing, whatever follows. */
  lemma EndMarkerFirst(inputs: seq<Input>, line: string, rest: string)
    requires inputs != [] && inputs[0].Chunk? && inputs[0].text == line + (['\n'] + rest)
    requires '\n' !in line && IsField(line, "data:", "[DONE]")
    ensures DecodeFrom(inputs, "", None) == []
  {
    assert "" + inputs[0].text == inputs[0].text;
    FirstLine(inputs[0].text, line, rest);
    MarkerStops(line, Lines(rest));
    assert Items([]) == [];
  }

  /** In particular one that starts with the line `data: [DONE]`. */
  lemma EndMarkerLine(inputs: seq<Input>)
    requires inputs != [] && inputs[0].Chunk? && "data: [DONE]\n" <= inputs[0].text
    ensures DecodeFrom(inputs, "", None) == []
  {
    var line := "data: [DONE]";
    assert line == Padded("", "data:", " ", "[DONE]", "");
    assert IsField(line, "data:", "[DONE]") && '\n' !in line;
    assert inputs[0].text == line + (['\n'] + inputs[0].text[13..]);
    EndMarkerFirst(inputs, line, inputs[0].text[13..]);
  }

  /** One byte up to 127, two up to 2047, three up to 65535, four above. */
  lemma Utf8Lengths(c: char)
    ensures Width(c) == 1 <==> c as int <= 127
    ensures Width(c) == 2 <==> 128 <= c as int <= 2047
    ensures Width(c) == 3 <==> 2048 <= c as int <= 65535
    ensures Width(c) == 4 <==> 65536 <= c as int
  {
  }

  lemma {:induction false} AsciiBytes(text: string)
    requires forall i :: 0 <= i < |text| ==> text[i] as int < 128
    ensures ByteLength(text) == |text|
    decreases |text|
  {
    if text != "" {
      AsciiBytes(text[1..]);
    }
  }

  /** An unfinished line is given up exactly when it is longer than 1048576 bytes. */
  lemma CapInBytes(text: string)
    requires forall i :: 0 <= i < |text| ==> text[i] as int < 128 && text[i] != '\n'
    ensures DecodeFrom([Chunk(text)], "", None) == if |text| <= 1048576 then [] else [TooLong]
  {
    var inputs := [Chunk(text)];
    assert "" + text == text && inputs[1..] == [];
    NewlineIsFirst(text);
    AsciiBytes(text);
    assert Items([]) == [];
  }

  method SseEvents(inputs: seq<Input>) returns (yielded: seq<Output>)
    ensures yielded == DecodeFrom(inputs, "", None)
  {
    yielded := [];
    var buffer: string := "";
    var currentEvent: Option<string> := None;
    var next := 0;
    ghost var all := DecodeFrom(inputs, "", None);
    while next < |inputs|
      invariant 0 <= next <= |inputs|
      invariant yielded + DecodeFrom(inputs[next..], buffer, currentEvent) == all
    {
      DecodeNext(inputs, buffer, currentEvent, next);
      match inputs[next] {
        case Chunk(text) =>
          buffer := buffer + text;
          var events, current, consumed, done := ConsumeLines(buffer, currentEvent);
          ghost var after := AfterLines(inputs[next + 1..], Folded(events, current, done), Rest(buffer));
          Associative(yielded, Items(events), after);
          yielded := yielded + Items(events);
          if done {
            return;
          }
          currentEvent := current;
          buffer := buffer[consumed..];
          if ByteLength(buffer) > MAX_LINE_BYTES {
            yielded := yielded + [TooLong];
            return;
          }
        case Broken(message) =>
          Associative(yielded, [Network(message)], DecodeFrom(inputs[next + 1..], buffer, currentEvent));
          yielded := yielded + [Network(message)];
      }
      next := next + 1;
    }
  }

  // ---------------------------------------------------------------------------
  // Cutting a text in two
  // ---------------------------------------------------------------------------

  lemma NextLineConcat(a: string, b: string, p: nat)
    requires p == NewlineAt(a) < |a|
    ensures Lines(a + b) == [a[..p]] + Lines(a[p + 1..] + b)
    ensures Rest(a + b) == Rest(a[p + 1..] + b)
  {
    NewlineIsFirst(a);
    NewlineIs(a + b, p);
    assert (a + b)[..p] == a[..p] && (a + b)[p + 1..] == a[p + 1..] + b;
    NextLine(a + b, p);
  }

  lemma {:induction false} LinesConcat(a: string, b: string)
    ensures Lines(a + b) == Lines(a) + Lines(Rest(a) + b)
    ensures Rest(a + b) == Rest(Rest(a) + b)
    decreases |a|
  {
    var p := NewlineAt(a);
    if p < |a| {
      var tail := a[p + 1..];
      NextLine(a, p);
      NextLineConcat(a, b, p);
      LinesConcat(tail, b);
      assert [a[..p]] + (Lines(tail) + Lines(Rest(tail) + b)) == Lines(a) + Lines(Rest(tail) + b);
    }
  }

  lemma NewlineIs(s: string, p: nat)
    requires p < |s| && s[p] == '\n' && forall i :: 0 <= i < p ==> s[i] != '\n'
    ensures NewlineAt(s) == p
  {
    NewlineIsFirst(s);
  }

  lemma {:induction false} FoldConcat(a: seq<string>, b: seq<string>, current: Option<string>)
    ensures var f := Fold(a, current);
            Fold(a + b, current) ==
            if f.done then f else
              var g := Fold(b, f.current);
              g.(events := f.events + g.events)
    decreases |a|
  {
    if a == [] {
      assert a + b == b;
      var g := Fold(b, current);
      assert g.(events := [] + g.events) == g;
    } else {
      assert (a + b)[0] == a[0] && (a + b)[1..] == a[1..] + b;
      match MeaningOf(a[0])
      case Blank => FoldConcat(a[1..], b, None);
      case EventType(name) => FoldConcat(a[1..], b, Some(name));
      case Stop =>
      case _ => FoldConcat(a[1..], b, current);
    }
  }

  /** What a prefix of a text leaves behind is all that matters for the remainder. */
  lemma WholeConcat(seen: string, text: string)
    ensures var f := Whole(seen);
            Whole(seen + text) ==
            if f.done then f else
              var g := Fold(Lines(Rest(seen) + text), f.current);
              g.(events := f.events + g.events)
  {
    LinesConcat(seen, text);
    FoldConcat(Lines(seen), Lines(Rest(seen) + text), None);
  }

  // ---------------------------------------------------------------------------
  // Chunking does not matter
  // ---------------------------------------------------------------------------

  /** The outputs other than transport errors. */
  function Received(out: seq<Output>): seq<Output> {
    if out == [] then [] else
      (if out[0].Network? then [] else [out[0]]) + Received(out[1..])
  }

  lemma {:induction false} ReceivedConcat(a: seq<Output>, b: seq<Output>)
    ensures Received(a + b) == Received(a) + Received(b)
    decreases |a|
  {
    if a == [] {
      assert a + b == b;
    } else {
      assert (a + b)[0] == a[0] && (a + b)[1..] == a[1..] + b;
      ReceivedConcat(a[1..], b);
    }
  }

  lemma {:induction false} ReceivedItems(es: seq<Event>)
    ensures Received(Items(es)) == Items(es)
    decreases |es|
  {
    if es != [] {
      assert Items(es)[1..] == Items(es[1..]);
      ReceivedItems(es[1..]);
    }
  }

  /** The chunks of a stream, transport errors left out. */
  function Chunks(inputs: seq<Input>): seq<string> {
    if inputs == [] then [] else
      (if inputs[0].Chunk? then [inputs[0].text] else []) + Chunks(inputs[1..])
  }

  function Text(chunks: seq<string>): string {
    if chunks == [] then [] else chunks[0] + Text(chunks[1..])
  }

  /** Nothing has to be given up at this point of the text. */
  predicate FitsAt(text: string) {
    Whole(text).done || ByteLength(Rest(text)) <= MAX_LINE_BYTES
  }

  /** No chunk boundary leaves more than the cap in the buffer before the stream stops. */
  ghost predicate Fits(seen: string, chunks: seq<string>) {
    forall k :: 1 <= k <= |chunks| ==> FitsAt(seen + Text(chunks[..k]))
  }

  /** The chunk at which the decoder gives up, if the stream does not fit. */
  function FirstMisfit(seen: string, chunks: seq<string>): (k: nat)
    ensures k <= |chunks|
    decreases |chunks|
  {
    if chunks == [] then 0
    else if !FitsAt(seen + chunks[0]) then 1
    else
      var k := FirstMisfit(seen + chunks[0], chunks[1..]);
      if k == 0 then 0 else k + 1
  }

  lemma {:induction false} FitsStep(seen: string, chunks: seq<string>)
    requires chunks != []
    ensures forall k :: 1 <= k <= |chunks| ==>
              seen + Text(chunks[..k]) == (seen + chunks[0]) + Text(chunks[1..][..k - 1])
    ensures Fits(seen, chunks) <==> FitsAt(seen + chunks[0]) && Fits(seen + chunks[0], chunks[1..])
  {
    var c := chunks[0];
    forall k | 1 <= k <= |chunks|
      ensures seen + Text(chunks[..k]) == (seen + c) + Text(chunks[1..][..k - 1])
    {
      assert chunks[..k][0] == c && chunks[..k][1..] == chunks[1..][..k - 1];
    }
    assert seen + Text(chunks[..1]) == (seen + c) + Text(chunks[1..][..0]) == seen + c;
    if FitsAt(seen + c) && Fits(seen + c, chunks[1..]) {
      forall k | 1 <= k <= |chunks| ensures FitsAt(seen + Text(chunks[..k])) {
        if k > 1 {
          assert FitsAt((seen + c) + Text(chunks[1..][..k - 1]));
        }
      }
    }
    if Fits(seen, chunks) {
      assert FitsAt(seen + Text(chunks[..1]));
      forall k | 1 <= k <= |chunks[1..]| ensures FitsAt((seen + c) + Text(chunks[1..][..k])) {
        assert FitsAt(seen + Text(chunks[..k + 1]));
      }
    }
  }

  lemma {:induction false} MisfitIsFirst(seen: string, chunks: seq<string>)
    ensures Fits(seen, chunks) <==> FirstMisfit(seen, chunks) == 0
    decreases |chunks|
  {
    if chunks != [] {
      FitsStep(seen, chunks);
      MisfitIsFirst(seen + chunks[0], chunks[1..]);
    }
  }

  lemma DoneStays(seen: string, text: string)
    requires Whole(seen).done
    ensures Whole(seen + text) == Whole(seen)
  {
    WholeConcat(seen, text);
  }

  lemma {:induction false} DoneFits(seen: string, chunks: seq<string>)
    requires Whole(seen).done
    ensures Fits(seen, chunks)
  {
    forall k | 1 <= k <= |chunks| ensures FitsAt(seen + Text(chunks[..k])) {
      DoneStays(seen, Text(chunks[..k]));
    }
  }

  /**
   What a stream has yielded by the time it ends: the events of all its text, or, if some
   chunk overfills the buffer, those up to that chunk and the complaint.
   */
  function Expected(seen: string, chunks: seq<string>): seq<Output> {
    var k := FirstMisfit(seen, chunks);
    if k == 0 then Items(Whole(seen + Text(chunks)).events)
    else Items(Whole(seen + Text(chunks[..k])).events) + [TooLong]
  }

  lemma {:induction false} ExpectedNext(seen: string, chunks: seq<string>)
    requires chunks != []
    ensures var now := seen + chunks[0];
            && (FitsAt(now) ==> Expected(seen, chunks) == Expected(now, chunks[1..]))
            && (!FitsAt(now) ==> Expected(seen, chunks) == Items(Whole(now).events) + [TooLong])
  {
    var now := seen + chunks[0];
    FitsStep(seen, chunks);
    assert seen + Text(chunks) == now + Text(chunks[1..]);
    if FitsAt(now) {
      var k := FirstMisfit(now, chunks[1..]);
      if k > 0 {
        assert seen + Text(chunks[..k + 1]) == now + Text(chunks[1..][..k]);
      }
    } else {
      assert seen + Text(chunks[..1]) == now + Text(chunks[1..][..0]) == now;
    }
  }

  lemma ExpectedWhenDone(seen: string, chunks: seq<string>)
    requires Whole(seen).done
    ensures Expected(seen, chunks) == Items(Whole(seen).events)
  {
    DoneFits(seen, chunks);
    MisfitIsFirst(seen, chunks);
    DoneStays(seen, Text(chunks));
  }

  /** After the text `seen` the decoder yields what is expected of the chunks to come. */
  lemma {:induction false} DecodesAsExpected(inputs: seq<Input>, seen: string)
    requires !Whole(seen).done
    ensures Items(Whole(seen).events) + Received(DecodeFrom(inputs, Rest(seen), Whole(seen).current))
         == Expected(seen, Chunks(inputs))
    decreases |inputs|
  {
    if inputs == [] {
      assert seen + Text([]) == seen;
    } else if inputs[0].Broken? {
      var tail := DecodeFrom(inputs[1..], Rest(seen), Whole(seen).current);
      var out := [Network(inputs[0].message)] + tail;
      assert out[1..] == tail && Received(out) == Received(tail);
      assert Chunks(inputs) == Chunks(inputs[1..]);
      DecodesAsExpected(inputs[1..], seen);
    } else {
      var c := inputs[0].text;
      var now := seen + c;
      assert Chunks(inputs)[0] == c && Chunks(inputs)[1..] == Chunks(inputs[1..]);
      var f := Fold(Lines(Rest(seen) + c), Whole(seen).current);
      ChunkDecoded(seen, c, inputs[1..], f, Rest(Rest(seen) + c));
      ExpectedNext(seen, Chunks(inputs));
      if Whole(now).done {
        ExpectedWhenDone(now, Chunks(inputs[1..]));
      } else if FitsAt(now) {
        DecodesAsExpected(inputs[1..], now);
      }
    }
  }

  lemma WholeOfChunk(seen: string, c: string, f: Folded)
    requires !Whole(seen).done && f == Fold(Lines(Rest(seen) + c), Whole(seen).current)
    ensures Whole(seen + c) == f.(events := Whole(seen).events + f.events)
    ensures Rest(seen + c) == Rest(Rest(seen) + c)
    ensures Items(Whole(seen + c).events) == Items(Whole(seen).events) + Items(f.events)
  {
    WholeConcat(seen, c);
    LinesConcat(seen, c);
    ItemsConcat(Whole(seen).events, f.events);
  }

  /** One chunk `c`: what it yields completes the events of the text so far. */
  lemma ChunkDecoded(seen: string, c: string, inputs: seq<Input>, f: Folded, rest: string)
    requires !Whole(seen).done && f == Fold(Lines(Rest(seen) + c), Whole(seen).current)
    requires rest == Rest(Rest(seen) + c)
    ensures Items(Whole(seen).events) + Received(Items(f.events) + AfterLines(inputs, f, rest))
         == Items(Whole(seen + c).events) +
            (if f.done then []
             else if ByteLength(rest) > MAX_LINE_BYTES then [TooLong]
             else Received(DecodeFrom(inputs, rest, f.current)))
    ensures Whole(seen + c).done == f.done && Whole(seen + c).current == f.current
    ensures Rest(seen + c) == rest
  {
    WholeOfChunk(seen, c, f);
    ReceivedAfter(f, inputs, rest);
    var after := if f.done then [] else if ByteLength(rest) > MAX_LINE_BYTES then [TooLong]
                 else Received(DecodeFrom(inputs, rest, f.current));
    Associative(Items(Whole(seen).events), Items(f.events), after);
  }

  lemma ReceivedAfter(f: Folded, inputs: seq<Input>, rest: string)
    ensures Received(Items(f.events) + AfterLines(inputs, f, rest)) == Items(f.events) +
            (if f.done then []
             else if ByteLength(rest) > MAX_LINE_BYTES then [TooLong]
             else Received(DecodeFrom(inputs, rest, f.current)))
  {
    ReceivedItems(f.events);
    ReceivedConcat(Items(f.events), AfterLines(inputs, f, rest));
    assert Received([TooLong]) == [TooLong];
  }

  // ---------------------------------------------------------------------------
  // Main results
  // ---------------------------------------------------------------------------

  /**
   A stream decodes to the events of its concatenated text, transport errors set aside, or
   to those of the text up to the first chunk that overfills the buffer and then one
   complaint.  Where the chunks were cut shows only through that.
   */
  lemma StreamDecodes(inputs: seq<Input>)
    ensures Received(DecodeFrom(inputs, "", None)) == Expected("", Chunks(inputs))
    ensures Fits("", Chunks(inputs)) ==>
              Received(DecodeFrom(inputs, "", None)) == Items(Whole(Text(Chunks(inputs))).events)
    ensures TooLong in DecodeFrom(inputs, "", None) <==> !Fits("", Chunks(inputs))
  {
    assert Whole("") == Folded([], None, false) && Rest("") == "";
    DecodesAsExpected(inputs, "");
    var out := DecodeFrom(inputs, "", None);
    assert Items(Whole("").events) + Received(out) == Received(out);
    MisfitIsFirst("", Chunks(inputs));
    assert "" + Text(Chunks(inputs)) == Text(Chunks(inputs));
    ReceivedKeeps(out, TooLong);
    NoComplaintAmongItems(Whole(Text(Chunks(inputs))).events);
  }

  lemma {:induction false} ReceivedKeeps(out: seq<Output>, o: Output)
    requires !o.Network?
    ensures o in out <==> o in Received(out)
    decreases |out|
  {
    if out != [] {
      ReceivedKeeps(out[1..], o);
      assert o in out <==> o == out[0] || o in out[1..];
    }
  }

  lemma NoComplaintAmongItems(es: seq<Event>)
    ensures TooLong !in Items(es)
  {
  }

  function ErrorsIn(out: seq<Output>): seq<string> {
    if out == [] then [] else
      (if out[0].Network? then [out[0].message] else []) + ErrorsIn(out[1..])
  }

  function Failures(inputs: seq<Input>): seq<string> {
    if inputs == [] then [] else
      (if inputs[0].Broken? then [inputs[0].message] else []) + Failures(inputs[1..])
  }

  lemma {:induction false} NoErrorsInItems(es: seq<Event>, tail: seq<Output>)
    ensures ErrorsIn(Items(es) + tail) == ErrorsIn(tail)
    decreases |es|
  {
    if es == [] {
      assert Items(es) + tail == tail;
    } else {
      assert (Items(es) + tail)[1..] == Items(es[1..]) + tail;
      NoErrorsInItems(es[1..], tail);
    }
  }

  /** The decoder ends with the chunk that completes this text: it stops, or gives up. */
  predicate EndsWith(text: string) {
    Whole(text).done || !FitsAt(text)
  }

  /** The text delivered by the first `n` inputs. */
  function TextOf(inputs: seq<Input>, n: nat): string
    requires n <= |inputs|
  {
    Text(Chunks(inputs[..n]))
  }

  /** The decoder reads the first `n` inputs: all of them, or up to the one it ends with. */
  ghost predicate ReadUpTo(inputs: seq<Input>, seen: string, n: nat) {
    && n <= |inputs|
    && (forall k :: 0 < k < n ==> !EndsWith(seen + TextOf(inputs, k)))
    && (n < |inputs| ==> n > 0 && EndsWith(seen + TextOf(inputs, n)))
  }

  lemma TextOfNext(inputs: seq<Input>, k: nat)
    requires 0 < k <= |inputs|
    ensures TextOf(inputs, k)
         == (if inputs[0].Chunk? then inputs[0].text else "") + TextOf(inputs[1..], k - 1)
  {
    assert inputs[..k][0] == inputs[0] && inputs[..k][1..] == inputs[1..][..k - 1];
    assert [] + Chunks(inputs[1..][..k - 1]) == Chunks(inputs[1..][..k - 1]);
    if inputs[0].Chunk? {
      assert ([inputs[0].text] + Chunks(inputs[1..][..k - 1]))[1..] == Chunks(inputs[1..][..k - 1]);
    }
  }

  lemma ReadUpToNext(inputs: seq<Input>, seen: string, now: string, m: nat)
    requires inputs != [] && now == seen + (if inputs[0].Chunk? then inputs[0].text else "")
    requires !EndsWith(now) && ReadUpTo(inputs[1..], now, m)
    ensures ReadUpTo(inputs, seen, m + 1)
  {
    forall k | 0 < k <= m + 1 ensures seen + TextOf(inputs, k) == now + TextOf(inputs[1..], k - 1) {
      TextOfNext(inputs, k);
    }
    assert TextOf(inputs[1..], 0) == "" && now + "" == now;
  }

  /**
   The transport errors yielded are exactly those that occurred, in order, before the
   decoder ended: all of them if it neither stopped nor gave up.
   */
  lemma {:induction false} ErrorsPassedOn(inputs: seq<Input>, seen: string) returns (n: nat)
    requires !EndsWith(seen)
    ensures ReadUpTo(inputs, seen, n)
    ensures ErrorsIn(DecodeFrom(inputs, Rest(seen), Whole(seen).current)) == Failures(inputs[..n])
    decreases |inputs|
  {
    if inputs == [] {
      n := 0;
    } else if inputs[0].Broken? {
      ErrorPassedOn(inputs, Rest(seen), Whole(seen).current);
      var m := ErrorsPassedOn(inputs[1..], seen);
      n := m + 1;
      assert seen + "" == seen;
      ReadUpToNext(inputs, seen, seen, m);
      FailuresOfPrefix(inputs, n);
    } else {
      var now := seen + inputs[0].text;
      ErrorsAfterChunk(inputs, seen, now);
      if EndsWith(now) {
        n := 1;
        EndedAtFirst(inputs, seen, now);
      } else {
        var m := ErrorsPassedOn(inputs[1..], now);
        n := m + 1;
        ReadUpToNext(inputs, seen, now, m);
        FailuresOfPrefix(inputs, n);
      }
    }
  }

  lemma FailuresOfPrefix(inputs: seq<Input>, n: nat)
    requires 0 < n <= |inputs|
    ensures Failures(inputs[..n])
         == (if inputs[0].Broken? then [inputs[0].message] else []) + Failures(inputs[1..][..n - 1])
  {
    assert inputs[..n][0] == inputs[0] && inputs[..n][1..] == inputs[1..][..n - 1];
  }

  /** A transport error is yielded as it is. */
  lemma ErrorPassedOn(inputs: seq<Input>, buffer: string, current: Option<string>)
    requires inputs != [] && inputs[0].Broken?
    ensures ErrorsIn(DecodeFrom(inputs, buffer, current))
         == [inputs[0].message] + ErrorsIn(DecodeFrom(inputs[1..], buffer, current))
  {
    var tail := DecodeFrom(inputs[1..], buffer, current);
    assert ([Network(inputs[0].message)] + tail)[1..] == tail;
  }

  /** A chunk yields no transport error itself. */
  lemma ErrorsAfterChunk(inputs: seq<Input>, seen: string, now: string)
    requires inputs != [] && inputs[0].Chunk? && now == seen + inputs[0].text && !Whole(seen).done
    ensures ErrorsIn(DecodeFrom(inputs, Rest(seen), Whole(seen).current))
         == if EndsWith(now) then [] else ErrorsIn(DecodeFrom(inputs[1..], Rest(now), Whole(now).current))
  {
    var f := Fold(Lines(Rest(seen) + inputs[0].text), Whole(seen).current);
    WholeOfChunk(seen, inputs[0].text, f);
    NoErrorsInItems(f.events, AfterLines(inputs[1..], f, Rest(now)));
    assert ErrorsIn([TooLong]) == [];
  }

  lemma EndedAtFirst(inputs: seq<Input>, seen: string, now: string)
    requires inputs != [] && inputs[0].Chunk? && now == seen + inputs[0].text && EndsWith(now)
    ensures ReadUpTo(inputs, seen, 1) && Failures(inputs[..1]) == []
  {
    TextOfNext(inputs, 1);
    assert inputs[..1][1..] == [] && TextOf(inputs[1..], 0) == "";
    assert inputs[0].text + "" == inputs[0].text;
  }

  /** A stream that never stops and never overfills the buffer passes every transport error on. */
  lemma AllErrorsPassedOn(inputs: seq<Input>, seen: string)
    requires !EndsWith(seen) && forall k :: 0 < k <= |inputs| ==> !EndsWith(seen + TextOf(inputs, k))
    ensures ErrorsIn(DecodeFrom(inputs, Rest(seen), Whole(seen).current)) == Failures(inputs)
  {
    var n := ErrorsPassedOn(inputs, seen);
    assert inputs[..|inputs|] == inputs;
  }

  /** The outputs of a stream that delivers `chunks` without transport errors. */
  function Decode(chunks: seq<string>): seq<Output> {
    DecodeFrom(Delivered(chunks), "", None)
  }

  function Delivered(chunks: seq<string>): seq<Input> {
    if chunks == [] then [] else [Chunk(chunks[0])] + Delivered(chunks[1..])
  }

  lemma {:induction false} DeliveredChunks(chunks: seq<string>)
    ensures Chunks(Delivered(chunks)) == chunks
    ensures Received(DecodeFrom(Delivered(chunks), "", None)) == Decode(chunks)
  {
    NoErrors(chunks, "", None);
    DeliveredAre(chunks);
  }

  lemma {:induction false} DeliveredAre(chunks: seq<string>)
    ensures Chunks(Delivered(chunks)) == chunks
    decreases |chunks|
  {
    if chunks != [] {
      assert Delivered(chunks)[1..] == Delivered(chunks[1..]);
      DeliveredAre(chunks[1..]);
    }
  }

  lemma {:induction false} NoErrors(chunks: seq<string>, buffer: string, current: Option<string>)
    ensures var out := DecodeFrom(Delivered(chunks), buffer, current);
            Received(out) == out
    decreases |chunks|
  {
    if chunks != [] {
      assert Delivered(chunks)[1..] == Delivered(chunks[1..]);
      var text := buffer + chunks[0];
      var f := Fold(Lines(text), current);
      ReceivedConcat(Items(f.events), AfterLines(Delivered(chunks[1..]), f, Rest(text)));
      ReceivedItems(f.events);
      assert Received([TooLong]) == [TooLong];
      NoErrors(chunks[1..], Rest(text), f.current);
    }
  }

  /** No line before the stop, nor the unfinished end, is longer than the cap. */
  ghost predicate ShortLines(text: string) {
    && (forall i :: 0 <= i < |Lines(text)| ==>
          Fold(Lines(text)[..i], None).done || ByteLength(Lines(text)[i]) <= MAX_LINE_BYTES)
    && FitsAt(text)
  }

  /**
   Every way of cutting a text into chunks decodes to the events of the text, exactly when
   the lines of the text are short.
   */
  lemma EveryChunkingAgreesIff(text: string)
    ensures (forall chunks: seq<string> :: Text(chunks) == text ==>
               Decode(chunks) == Items(Whole(text).events)) <==> ShortLines(text)
  {
    if ShortLines(text) {
      forall chunks: seq<string> | Text(chunks) == text
        ensures Decode(chunks) == Items(Whole(text).events)
      {
        ShortLinesFit(text, chunks);
        DeliveredChunks(chunks);
        StreamDecodes(Delivered(chunks));
      }
    } else {
      var chunks := BadChunking(text);
      DeliveredChunks(chunks);
      StreamDecodes(Delivered(chunks));
      NoComplaintAmongItems(Whole(text).events);
      assert Text(chunks) == text && Decode(chunks) != Items(Whole(text).events);
    }
  }

  lemma ByteLengthPrefix(s: string, n: nat)
    requires n <= |s|
    ensures ByteLength(s[..n]) <= ByteLength(s)
  {
    if n > 0 {
      assert s[..n][1..] == s[1..][..n - 1];
      ByteLengthPrefix(s[1..], n - 1);
    }
  }

  /** The text before the cut `n` leaves over a prefix of the line the cut falls in. */
  lemma ShortLinesFitAt(text: string, n: nat)
    requires n <= |text| && ShortLines(text)
    ensures FitsAt(text[..n])
  {
    var p, q := text[..n], text[n..];
    assert text == p + q;
    LinesConcat(p, q);
    var L, M := Lines(p), Lines(Rest(p) + q);
    if M == [] {
      FoldConcat(L, M, None);
      assert L + M == L;
      assert Rest(text) == Rest(p) + q;
      assert (Rest(p) + q)[..|Rest(p)|] == Rest(p);
      ByteLengthPrefix(Rest(p) + q, |Rest(p)|);
    } else {
      assert Lines(text)[..|L|] == L && Lines(text)[|L|] == M[0];
      assert Fold(L, None).done || ByteLength(M[0]) <= MAX_LINE_BYTES;
      RestHasNoNewline(p);
      FirstLineStarts(Rest(p), q);
      assert M[0][..|Rest(p)|] == Rest(p);
      ByteLengthPrefix(M[0], |Rest(p)|);
    }
  }

  lemma {:induction false} RestHasNoNewline(text: string)
    ensures NewlineAt(Rest(text)) == |Rest(text)|
    ensures Rest(Rest(text)) == Rest(text) && Lines(Rest(text)) == []
    decreases |text|
  {
    var p := NewlineAt(text);
    if p < |text| {
      RestHasNoNewline(text[p + 1..]);
    }
  }

  lemma FirstLineStarts(rest: string, q: string)
    requires NewlineAt(rest) == |rest| && Lines(rest + q) != []
    ensures |rest| <= |Lines(rest + q)[0]| && Lines(rest + q)[0][..|rest|] == rest
  {
    NewlineIsFirst(rest);
    NewlineIsFirst(rest + q);
    var p := NewlineAt(rest + q);
    assert forall i :: 0 <= i < |rest| ==> (rest + q)[i] == rest[i] != '\n';
  }

  lemma {:induction false} TextPrefix(chunks: seq<string>, k: nat)
    requires k <= |chunks|
    ensures Text(chunks[..k]) <= Text(chunks)
    decreases |chunks|
  {
    if k > 0 {
      assert chunks[..k][1..] == chunks[1..][..k - 1];
      TextPrefix(chunks[1..], k - 1);
    }
  }

  lemma ShortLinesFit(text: string, chunks: seq<string>)
    requires ShortLines(text) && Text(chunks) == text
    ensures Fits("", chunks)
  {
    forall k | 1 <= k <= |chunks| ensures FitsAt("" + Text(chunks[..k])) {
      TextPrefix(chunks, k);
      var n := |Text(chunks[..k])|;
      ShortLinesFitAt(text, n);
      assert "" + Text(chunks[..k]) == text[..n];
    }
  }

  /** Where the text up to, but not including, the newline of line `i` ends. */
  lemma {:induction false} LineEnd(text: string, i: nat) returns (n: nat)
    requires i < |Lines(text)|
    ensures n <= |text|
    ensures Lines(text[..n]) == Lines(text)[..i] && Rest(text[..n]) == Lines(text)[i]
    decreases i
  {
    var p := NewlineAt(text);
    NewlineIsFirst(text);
    if i == 0 {
      n := p;
      NewlineIsFirst(text[..p]);
      assert NewlineAt(text[..p]) == p;
    } else {
      var m := LineEnd(text[p + 1..], i - 1);
      n := p + 1 + m;
      NewlineIs(text[..n], p);
      assert text[..n][..p] == text[..p] && text[..n][p + 1..] == text[p + 1..][..m];
    }
  }

  lemma BadChunking(text: string) returns (chunks: seq<string>)
    requires !ShortLines(text)
    ensures Text(chunks) == text && !Fits("", chunks)
  {
    if !FitsAt(text) {
      chunks := [text];
      assert Text(chunks[1..]) == "";
      assert Text(chunks) == text && chunks[..1] == chunks;
      assert "" + Text(chunks[..1]) == text;
    } else {
      var i :| 0 <= i < |Lines(text)|
               && !Fold(Lines(text)[..i], None).done && ByteLength(Lines(text)[i]) > MAX_LINE_BYTES;
      var n := LineEnd(text, i);
      chunks := [text[..n], text[n..]];
      assert chunks[1..] == [text[n..]];
      assert Text([text[n..]]) == text[n..] + Text([]) == text[n..];
      assert Text(chunks) == text;
      assert chunks[..1] == [text[..n]] && Text([text[..n]]) == text[..n] + Text([]) == text[..n];
      assert "" + Text(chunks[..1]) == text[..n];
      assert !FitsAt("" + Text(chunks[..1]));
    }
  }
}
