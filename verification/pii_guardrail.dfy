/**
 The request-side PII guardrail: collect the strings in scope, run the engine over them,
 and write the rewritten ones back where they came from.  The engine is a parameter.
 */
module PiiRequests {
  import opened Options

  datatype Role = System | User | Assistant | Tool

  datatype ContentPart =
    | TextPart(text: string)
    | ImageUrl(url: string, detail: Option<string>)

  datatype Content =
    | Text(text: string)
    | Parts(parts: seq<ContentPart>)

  datatype ToolCall = ToolCall(id: string, toolType: string, name: string, arguments: string)

  datatype Message = Message(
    role: Role,
    content: Option<Content>,
    name: Option<string>,
    toolCalls: Option<seq<ToolCall>>,
    toolCallId: Option<string>)

  datatype Mode = Redact | Block | Observe

  datatype Settings = Settings(
    mode: Mode,
    applyTo: seq<Role>,
    scanToolArguments: bool,
    failOpen: bool)

  // ---------------------------------------------------------------------------
  // The structural meaning of a rewrite
  // ---------------------------------------------------------------------------

  /** What the engine makes of a text; `None` leaves it as it is. */
  type Rewriter = string -> Option<string>

  function RewriteText(f: Rewriter, s: string): string {
    if s == [] || f(s).None? then s else f(s).value
  }

  function RewritePart(f: Rewriter, p: ContentPart): ContentPart {
    match p
    case TextPart(text) => TextPart(RewriteText(f, text))
    case ImageUrl(_, _) => p
  }

  function RewriteCall(f: Rewriter, c: ToolCall): ToolCall {
    c.(arguments := RewriteText(f, c.arguments))
  }

  function RewriteParts(f: Rewriter, ps: seq<ContentPart>): (rs: seq<ContentPart>)
    ensures |rs| == |ps|
  {
    seq(|ps|, i requires 0 <= i < |ps| => RewritePart(f, ps[i]))
  }

  function RewriteCalls(f: Rewriter, cs: seq<ToolCall>): (rs: seq<ToolCall>)
    ensures |rs| == |cs|
  {
    seq(|cs|, i requires 0 <= i < |cs| => RewriteCall(f, cs[i]))
  }

  function RewriteContent(f: Rewriter, c: Content): Content {
    match c
    case Text(text) => Text(RewriteText(f, text))
    case Parts(parts) => Parts(RewriteParts(f, parts))
  }

  /** Texts of a role in scope are rewritten, and tool arguments if they are scanned. */
  function RewriteMessage(st: Settings, f: Rewriter, m: Message): Message {
    if m.role !in st.applyTo then m
    else
      m.(content := if m.content.Some? then Some(RewriteContent(f, m.content.value)) else None,
         toolCalls := if st.scanToolArguments && m.toolCalls.Some?
                      then Some(RewriteCalls(f, m.toolCalls.value)) else m.toolCalls)
  }

  function RewriteAll(st: Settings, f: Rewriter, ms: seq<Message>): (rs: seq<Message>)
    ensures |rs| == |ms|
  {
    seq(|ms|, i requires 0 <= i < |ms| => RewriteMessage(st, f, ms[i]))
  }

  // ---------------------------------------------------------------------------
  // Slots
  // ---------------------------------------------------------------------------

  /** Where a scanned string lives, and the string. */
  datatype Slot =
    | WholeText(msg: nat)
    | PartText(msg: nat, part: nat)
    | ToolArg(msg: nat, call: nat)

  datatype Found = Found(slot: Slot, text: string)

  function PartsFound(ps: seq<ContentPart>, i: nat, j: nat): seq<Found>
    requires j <= |ps|
    decreases |ps| - j
  {
    if j == |ps| then [] else
      (if ps[j].TextPart? && ps[j].text != [] then [Found(PartText(i, j), ps[j].text)] else [])
      + PartsFound(ps, i, j + 1)
  }

  function CallsFound(cs: seq<ToolCall>, i: nat, j: nat): seq<Found>
    requires j <= |cs|
    decreases |cs| - j
  {
    if j == |cs| then [] else
      (if cs[j].arguments != [] then [Found(ToolArg(i, j), cs[j].arguments)] else [])
      + CallsFound(cs, i, j + 1)
  }

  function ContentFound(c: Option<Content>, i: nat): seq<Found> {
    match c
    case Some(Text(text)) => if text != [] then [Found(WholeText(i), text)] else []
    case Some(Parts(parts)) => PartsFound(parts, i, 0)
    case None => []
  }

  function MessageFound(st: Settings, m: Message, i: nat): seq<Found> {
    if m.role !in st.applyTo then []
    else
      ContentFound(m.content, i)
      + if st.scanToolArguments && m.toolCalls.Some? then CallsFound(m.toolCalls.value, i, 0) else []
  }

  function AllFound(st: Settings, ms: seq<Message>, i: nat): seq<Found>
    requires i <= |ms|
    decreases |ms| - i
  {
    if i == |ms| then [] else MessageFound(st, ms[i], i) + AllFound(st, ms, i + 1)
  }

  lemma Associative(a: seq<Found>, b: seq<Found>, c: seq<Found>)
    ensures (a + b) + c == a + (b + c)
  {
  }

  method CollectParts(ps: seq<ContentPart>, i: nat) returns (found: seq<Found>)
    ensures found == PartsFound(ps, i, 0)
  {
    found := [];
    for j := 0 to |ps|
      invariant found + PartsFound(ps, i, j) == PartsFound(ps, i, 0)
    {
      var here: seq<Found> := [];
      if ps[j].TextPart? && ps[j].text != [] {
        here := [Found(PartText(i, j), ps[j].text)];
      }
      Associative(found, here, PartsFound(ps, i, j + 1));
      found := found + here;
    }
  }

  method CollectCalls(cs: seq<ToolCall>, i: nat) returns (found: seq<Found>)
    ensures found == CallsFound(cs, i, 0)
  {
    found := [];
    for j := 0 to |cs|
      invariant found + CallsFound(cs, i, j) == CallsFound(cs, i, 0)
    {
      var here: seq<Found> := [];
      if cs[j].arguments != [] {
        here := [Found(ToolArg(i, j), cs[j].arguments)];
      }
      Associative(found, here, CallsFound(cs, i, j + 1));
      found := found + here;
    }
  }

  method CollectMessage(st: Settings, m: Message, i: nat) returns (found: seq<Found>)
    ensures found == MessageFound(st, m, i)
  {
    found := [];
    if m.role !in st.applyTo {
      return;
    }
    match m.content {
      case Some(Text(text)) =>
        if text != [] {
          found := [Found(WholeText(i), text)];
        }
      case Some(Parts(parts)) =>
        found := CollectParts(parts, i);
      case None =>
    }
    if st.scanToolArguments && m.toolCalls.Some? {
      var calls := CollectCalls(m.toolCalls.value, i);
      found := found + calls;
    }
  }

  method CollectSlots(st: Settings, ms: seq<Message>) returns (found: seq<Found>)
    ensures found == AllFound(st, ms, 0)
  {
    found := [];
    for i := 0 to |ms|
      invariant found + AllFound(st, ms, i) == AllFound(st, ms, 0)
    {
      var here := CollectMessage(st, ms[i], i);
      Associative(found, here, AllFound(st, ms, i + 1));
      found := found + here;
    }
  }

  // ---------------------------------------------------------------------------
  // Writing back
  // ---------------------------------------------------------------------------

  /** Put `text` where `slot` points inside its message; a slot that is not there changes nothing. */
  function WriteInto(m: Message, slot: Slot, text: string): Message {
    match slot
    case WholeText(_) => m.(content := Some(Text(text)))
    case PartText(_, j) =>
      if m.content.Some? && m.content.value.Parts? && j < |m.content.value.parts|
         && m.content.value.parts[j].TextPart?
      then m.(content := Some(Parts(m.content.value.parts[j := TextPart(text)])))
      else m
    case ToolArg(_, j) =>
      if m.toolCalls.Some? && j < |m.toolCalls.value|
      then m.(toolCalls := Some(m.toolCalls.value[j := m.toolCalls.value[j].(arguments := text)]))
      else m
  }

  function WriteIf(f: Rewriter, m: Message, found: Found): Message {
    if f(found.text).Some? then WriteInto(m, found.slot, f(found.text).value) else m
  }

  /** The message after all its slots were written back. */
  function WriteEach(f: Rewriter, m: Message, found: seq<Found>): Message
    decreases |found|
  {
    if found == [] then m else WriteEach(f, WriteIf(f, m, found[0]), found[1..])
  }

  /** Every slot lies in one of `n` messages. */
  ghost predicate Within(found: seq<Found>, n: nat) {
    forall k :: 0 <= k < |found| ==> found[k].slot.msg < n
  }

  /** The request after all slots were written back, in order. */
  function WriteAll(f: Rewriter, ms: seq<Message>, found: seq<Found>): (rs: seq<Message>)
    requires Within(found, |ms|)
    ensures |rs| == |ms|
    decreases |found|
  {
    if found == [] then ms else
      var i := found[0].slot.msg;
      WriteAll(f, ms[i := WriteIf(f, ms[i], found[0])], found[1..])
  }

  lemma {:induction false} WriteEachConcat(f: Rewriter, m: Message, a: seq<Found>, b: seq<Found>)
    ensures WriteEach(f, m, a + b) == WriteEach(f, WriteEach(f, m, a), b)
    decreases |a|
  {
    if a == [] {
      assert a + b == b;
    } else {
      assert (a + b)[0] == a[0] && (a + b)[1..] == a[1..] + b;
      WriteEachConcat(f, WriteIf(f, m, a[0]), a[1..], b);
    }
  }

  lemma {:induction false} WriteAllConcat(f: Rewriter, ms: seq<Message>, a: seq<Found>, b: seq<Found>)
    requires Within(a, |ms|)
    requires Within(b, |ms|)
    ensures Within(a + b, |ms|)
    ensures WriteAll(f, ms, a + b) == WriteAll(f, WriteAll(f, ms, a), b)
    decreases |a|
  {
    if a == [] {
      assert a + b == b;
    } else {
      assert (a + b)[0] == a[0] && (a + b)[1..] == a[1..] + b;
      var i := a[0].slot.msg;
      WriteAllConcat(f, ms[i := WriteIf(f, ms[i], a[0])], a[1..], b);
    }
  }

  /** Slots of one message touch that message only. */
  lemma {:induction false} WriteOneMessage(f: Rewriter, ms: seq<Message>, found: seq<Found>, i: nat)
    requires i < |ms| && forall k :: 0 <= k < |found| ==> found[k].slot.msg == i
    ensures Within(found, |ms|)
    ensures WriteAll(f, ms, found) == ms[i := WriteEach(f, ms[i], found)]
    decreases |found|
  {
    if found != [] {
      var next := ms[i := WriteIf(f, ms[i], found[0])];
      WriteOneMessage(f, next, found[1..], i);
    }
  }

  lemma {:induction false} PartsAllOf(ps: seq<ContentPart>, i: nat, j: nat)
    requires j <= |ps|
    ensures forall k :: 0 <= k < |PartsFound(ps, i, j)| ==> PartsFound(ps, i, j)[k].slot.msg == i
    decreases |ps| - j
  {
    if j < |ps| {
      PartsAllOf(ps, i, j + 1);
    }
  }

  lemma {:induction false} CallsAllOf(cs: seq<ToolCall>, i: nat, j: nat)
    requires j <= |cs|
    ensures forall k :: 0 <= k < |CallsFound(cs, i, j)| ==> CallsFound(cs, i, j)[k].slot.msg == i
    decreases |cs| - j
  {
    if j < |cs| {
      CallsAllOf(cs, i, j + 1);
    }
  }

  lemma MessageAllOf(st: Settings, m: Message, i: nat)
    ensures forall k :: 0 <= k < |MessageFound(st, m, i)| ==> MessageFound(st, m, i)[k].slot.msg == i
  {
    if m.content.Some? && m.content.value.Parts? {
      PartsAllOf(m.content.value.parts, i, 0);
    }
    if m.toolCalls.Some? {
      CallsAllOf(m.toolCalls.value, i, 0);
    }
  }

  lemma {:induction false} AllWithin(st: Settings, ms: seq<Message>, i: nat)
    requires i <= |ms|
    ensures Within(AllFound(st, ms, i), |ms|)
    decreases |ms| - i
  {
    if i < |ms| {
      MessageAllOf(st, ms[i], i);
      AllWithin(st, ms, i + 1);
    }
  }

  /** Item `j` done is one more item done. */
  lemma Splice<T>(now: seq<T>, done: seq<T>, j: nat)
    requires j < |now| == |done|
    ensures now[j := done[j]][..j + 1] + done[j + 1..] == now[..j] + done[j..]
  {
  }

  lemma SpliceEnds<T>(now: seq<T>, done: seq<T>)
    requires |now| == |done|
    ensures now[..0] + done[0..] == done
    ensures now[..|now|] + done[|now|..] == now
  {
  }

  /** From part `j` on, writing back rewrites the parts; `now` is how far they have come. */
  lemma {:induction false} PartsWritten(
      f: Rewriter, m: Message, ps: seq<ContentPart>, now: seq<ContentPart>, i: nat, j: nat)
    requires j <= |ps| == |now| && now[j..] == ps[j..] && m.content == Some(Parts(now))
    ensures WriteEach(f, m, PartsFound(ps, i, j))
         == m.(content := Some(Parts(now[..j] + RewriteParts(f, ps)[j..])))
    decreases |ps| - j
  {
    if j == |ps| {
      SpliceEnds(now, RewriteParts(f, ps));
    } else {
      assert now[j] == ps[j];
      var next := now[j := RewritePart(f, ps[j])];
      PartsWritten(f, m.(content := Some(Parts(next))), ps, next, i, j + 1);
      Splice(now, RewriteParts(f, ps), j);
      var here := if ps[j].TextPart? && ps[j].text != [] then [Found(PartText(i, j), ps[j].text)] else [];
      WriteEachConcat(f, m, here, PartsFound(ps, i, j + 1));
      PartWritten(f, m, now, here, i, j);
    }
  }

  lemma PartWritten(f: Rewriter, m: Message, now: seq<ContentPart>, here: seq<Found>, i: nat, j: nat)
    requires j < |now| && m.content == Some(Parts(now))
    requires here == if now[j].TextPart? && now[j].text != [] then [Found(PartText(i, j), now[j].text)] else []
    ensures WriteEach(f, m, here) == m.(content := Some(Parts(now[j := RewritePart(f, now[j])])))
  {
    if here == [] {
      assert now[j := now[j]] == now;
    } else {
      assert here[1..] == [];
      assert now[j := now[j]] == now;
    }
  }

  lemma {:induction false} CallsWritten(
      f: Rewriter, m: Message, cs: seq<ToolCall>, now: seq<ToolCall>, i: nat, j: nat)
    requires j <= |cs| == |now| && now[j..] == cs[j..] && m.toolCalls == Some(now)
    ensures WriteEach(f, m, CallsFound(cs, i, j))
         == m.(toolCalls := Some(now[..j] + RewriteCalls(f, cs)[j..]))
    decreases |cs| - j
  {
    if j == |cs| {
      SpliceEnds(now, RewriteCalls(f, cs));
    } else {
      assert now[j] == cs[j];
      var next := now[j := RewriteCall(f, cs[j])];
      CallsWritten(f, m.(toolCalls := Some(next)), cs, next, i, j + 1);
      Splice(now, RewriteCalls(f, cs), j);
      var here := if cs[j].arguments != [] then [Found(ToolArg(i, j), cs[j].arguments)] else [];
      WriteEachConcat(f, m, here, CallsFound(cs, i, j + 1));
      CallWritten(f, m, now, here, i, j);
    }
  }

  lemma CallWritten(f: Rewriter, m: Message, now: seq<ToolCall>, here: seq<Found>, i: nat, j: nat)
    requires j < |now| && m.toolCalls == Some(now)
    requires here == if now[j].arguments != [] then [Found(ToolArg(i, j), now[j].arguments)] else []
    ensures WriteEach(f, m, here) == m.(toolCalls := Some(now[j := RewriteCall(f, now[j])]))
  {
    assert now[j := now[j]] == now;
    if here != [] {
      assert here[1..] == [];
    }
  }

  lemma ContentWritten(f: Rewriter, m: Message, i: nat)
    ensures WriteEach(f, m, ContentFound(m.content, i))
         == m.(content := if m.content.Some? then Some(RewriteContent(f, m.content.value)) else None)
  {
    match m.content {
      case None =>
      case Some(Text(text)) =>
        if text != [] {
          var here := [Found(WholeText(i), text)];
          assert here[1..] == [];
        }
      case Some(Parts(parts)) =>
        PartsWritten(f, m, parts, parts, i, 0);
        SpliceEnds(parts, RewriteParts(f, parts));
    }
  }

  /** Writing back all slots of a message is rewriting the message. */
  lemma MessageWritten(st: Settings, f: Rewriter, m: Message, i: nat)
    ensures WriteEach(f, m, MessageFound(st, m, i)) == RewriteMessage(st, f, m)
  {
    if m.role in st.applyTo {
      ContentWritten(f, m, i);
      var n := WriteEach(f, m, ContentFound(m.content, i));
      var calls := if st.scanToolArguments && m.toolCalls.Some?
                   then CallsFound(m.toolCalls.value, i, 0) else [];
      WriteEachConcat(f, m, ContentFound(m.content, i), calls);
      if st.scanToolArguments && m.toolCalls.Some? {
        var cs := m.toolCalls.value;
        CallsWritten(f, n, cs, cs, i, 0);
        SpliceEnds(cs, RewriteCalls(f, cs));
      }
    }
  }

  /** The slots of message `i` come first and bring that message to its rewritten form. */
  lemma FirstMessageWritten(st: Settings, f: Rewriter, ms: seq<Message>, now: seq<Message>, i: nat)
    requires i < |ms| == |now| && now[i] == ms[i]
    requires Within(AllFound(st, ms, i), |ms|)
    requires Within(AllFound(st, ms, i + 1), |ms|)
    ensures WriteAll(f, now, AllFound(st, ms, i))
         == WriteAll(f, now[i := RewriteMessage(st, f, ms[i])], AllFound(st, ms, i + 1))
  {
    var here := MessageFound(st, ms[i], i);
    MessageAllOf(st, ms[i], i);
    WriteAllConcat(f, now, here, AllFound(st, ms, i + 1));
    WriteOneMessage(f, now, here, i);
    MessageWritten(st, f, ms[i], i);
  }

  /** From message `i` on; `now` is how far the request has come. */
  lemma {:induction false} RequestWritten(
      st: Settings, f: Rewriter, ms: seq<Message>, now: seq<Message>, i: nat)
    requires i <= |ms| == |now| && now[i..] == ms[i..]
    ensures Within(AllFound(st, ms, i), |ms|)
    ensures WriteAll(f, now, AllFound(st, ms, i)) == now[..i] + RewriteAll(st, f, ms)[i..]
    decreases |ms| - i
  {
    AllWithin(st, ms, i);
    var done := RewriteAll(st, f, ms);
    if i == |ms| {
      SpliceEnds(now, done);
    } else {
      assert now[i] == ms[i];
      AllWithin(st, ms, i + 1);
      FirstMessageWritten(st, f, ms, now, i);
      assert now[i := done[i]][i + 1..] == now[i..][1..] == ms[i..][1..] == ms[i + 1..];
      RequestWritten(st, f, ms, now[i := done[i]], i + 1);
      Splice(now, done, i);
    }
  }

  /** Collecting and writing back is the structural rewrite of the request, no more and no less. */
  lemma WriteBackIsRewrite(st: Settings, f: Rewriter, ms: seq<Message>)
    ensures Within(AllFound(st, ms, 0), |ms|)
    ensures WriteAll(f, ms, AllFound(st, ms, 0)) == RewriteAll(st, f, ms)
  {
    RequestWritten(st, f, ms, ms, 0);
    SpliceEnds(ms, RewriteAll(st, f, ms));
  }

  // ---------------------------------------------------------------------------
  // The texts of a request, one by one
  // ---------------------------------------------------------------------------

  /** The text a slot points at, if there is one. */
  function TextAt(ms: seq<Message>, slot: Slot): Option<string> {
    if slot.msg >= |ms| then None else TextOf(ms[slot.msg], slot)
  }

  function TextOf(m: Message, slot: Slot): Option<string> {
    match slot
    case WholeText(_) => if m.content.Some? && m.content.value.Text? then Some(m.content.value.text) else None
    case PartText(_, j) =>
      if m.content.Some? && m.content.value.Parts? && j < |m.content.value.parts|
         && m.content.value.parts[j].TextPart?
      then Some(m.content.value.parts[j].text) else None
    case ToolArg(_, j) =>
      if m.toolCalls.Some? && j < |m.toolCalls.value| then Some(m.toolCalls.value[j].arguments) else None
  }

  /** The slot's message has a role in scope, and tool arguments are scanned if it is one. */
  predicate InScope(st: Settings, ms: seq<Message>, slot: Slot) {
    slot.msg < |ms| && ms[slot.msg].role in st.applyTo && (slot.ToolArg? ==> st.scanToolArguments)
  }

  /** What is scanned: the non-empty texts in scope. */
  predicate Scanned(st: Settings, ms: seq<Message>, slot: Slot) {
    InScope(st, ms, slot) && TextAt(ms, slot).Some? && TextAt(ms, slot).value != ""
  }

  ghost predicate FromPart(ps: seq<ContentPart>, i: nat, k: int, f: Found) {
    0 <= k < |ps| && ps[k].TextPart? && ps[k].text != "" && f == Found(PartText(i, k), ps[k].text)
  }

  ghost predicate FromCall(cs: seq<ToolCall>, i: nat, k: int, f: Found) {
    0 <= k < |cs| && cs[k].arguments != "" && f == Found(ToolArg(i, k), cs[k].arguments)
  }

  lemma {:induction false} PartsFoundIff(ps: seq<ContentPart>, i: nat, j: nat, f: Found)
    requires j <= |ps|
    ensures f in PartsFound(ps, i, j) <==> exists k :: j <= k && FromPart(ps, i, k, f)
    decreases |ps| - j
  {
    if j < |ps| {
      PartsFoundIff(ps, i, j + 1, f);
      var here := if ps[j].TextPart? && ps[j].text != [] then [Found(PartText(i, j), ps[j].text)] else [];
      assert f in here <==> FromPart(ps, i, j, f);
      InEither(here, PartsFound(ps, i, j + 1), f);
    }
  }

  lemma {:induction false} CallsFoundIff(cs: seq<ToolCall>, i: nat, j: nat, f: Found)
    requires j <= |cs|
    ensures f in CallsFound(cs, i, j) <==> exists k :: j <= k && FromCall(cs, i, k, f)
    decreases |cs| - j
  {
    if j < |cs| {
      CallsFoundIff(cs, i, j + 1, f);
      var here := if cs[j].arguments != [] then [Found(ToolArg(i, j), cs[j].arguments)] else [];
      assert f in here <==> FromCall(cs, i, j, f);
      InEither(here, CallsFound(cs, i, j + 1), f);
    }
  }

  lemma InEither(a: seq<Found>, b: seq<Found>, f: Found)
    ensures f in a + b <==> f in a || f in b
  {
  }

  lemma ContentFoundIff(m: Message, i: nat, f: Found)
    ensures f in ContentFound(m.content, i)
            <==> !f.slot.ToolArg? && f.slot.msg == i && TextOf(m, f.slot) == Some(f.text) && f.text != ""
  {
    if m.content.Some? && m.content.value.Parts? {
      PartsFoundIff(m.content.value.parts, i, 0, f);
      assert f.slot.PartText? ==>
          (FromPart(m.content.value.parts, i, f.slot.part, f)
           <==> f.slot.msg == i && TextOf(m, f.slot) == Some(f.text) && f.text != "");
    }
  }

  lemma MessageFoundIff(st: Settings, m: Message, i: nat, f: Found)
    ensures f in MessageFound(st, m, i)
            <==> && f.slot.msg == i && m.role in st.applyTo && (f.slot.ToolArg? ==> st.scanToolArguments)
                 && TextOf(m, f.slot) == Some(f.text) && f.text != ""
  {
    ContentFoundIff(m, i, f);
    if m.toolCalls.Some? {
      CallsFoundIff(m.toolCalls.value, i, 0, f);
      assert f.slot.ToolArg? ==>
          (FromCall(m.toolCalls.value, i, f.slot.call, f)
           <==> f.slot.msg == i && TextOf(m, f.slot) == Some(f.text) && f.text != "");
    }
  }

  lemma {:induction false} AllFoundFromIff(st: Settings, ms: seq<Message>, i: nat, f: Found)
    requires i <= |ms|
    ensures f in AllFound(st, ms, i)
            <==> i <= f.slot.msg && Scanned(st, ms, f.slot) && TextAt(ms, f.slot) == Some(f.text)
    decreases |ms| - i
  {
    if i < |ms| {
      FoundInMessage(st, ms, i, f);
      AllFoundFromIff(st, ms, i + 1, f);
      InEither(MessageFound(st, ms[i], i), AllFound(st, ms, i + 1), f);
    } else {
      assert AllFound(st, ms, i) == [];
    }
  }

  lemma FoundInMessage(st: Settings, ms: seq<Message>, i: nat, f: Found)
    requires i < |ms|
    ensures f in MessageFound(st, ms[i], i)
            <==> f.slot.msg == i && Scanned(st, ms, f.slot) && TextAt(ms, f.slot) == Some(f.text)
  {
    MessageFoundIff(st, ms[i], i, f);
  }

  /** The collected slots are exactly those of the non-empty texts in scope, with these texts. */
  lemma CollectedIff(st: Settings, ms: seq<Message>, f: Found)
    ensures f in AllFound(st, ms, 0) <==> Scanned(st, ms, f.slot) && TextAt(ms, f.slot) == Some(f.text)
  {
    AllFoundFromIff(st, ms, 0, f);
  }

  ghost predicate NoRepeats(found: seq<Found>) {
    forall a, b :: 0 <= a < b < |found| ==> found[a].slot != found[b].slot
  }

  lemma NoRepeatsConcat(a: seq<Found>, b: seq<Found>)
    requires NoRepeats(a) && NoRepeats(b)
    requires forall f, g :: f in a && g in b ==> f.slot != g.slot
    ensures NoRepeats(a + b)
  {
  }

  lemma {:induction false} PartsOnce(ps: seq<ContentPart>, i: nat, j: nat)
    requires j <= |ps|
    ensures NoRepeats(PartsFound(ps, i, j))
    decreases |ps| - j
  {
    if j < |ps| {
      PartsOnce(ps, i, j + 1);
      var here := if ps[j].TextPart? && ps[j].text != [] then [Found(PartText(i, j), ps[j].text)] else [];
      forall f, g | f in here && g in PartsFound(ps, i, j + 1) ensures f.slot != g.slot {
        PartsFoundIff(ps, i, j + 1, g);
      }
      NoRepeatsConcat(here, PartsFound(ps, i, j + 1));
    }
  }

  lemma {:induction false} CallsOnce(cs: seq<ToolCall>, i: nat, j: nat)
    requires j <= |cs|
    ensures NoRepeats(CallsFound(cs, i, j))
    decreases |cs| - j
  {
    if j < |cs| {
      CallsOnce(cs, i, j + 1);
      var here := if cs[j].arguments != [] then [Found(ToolArg(i, j), cs[j].arguments)] else [];
      forall f, g | f in here && g in CallsFound(cs, i, j + 1) ensures f.slot != g.slot {
        CallsFoundIff(cs, i, j + 1, g);
      }
      NoRepeatsConcat(here, CallsFound(cs, i, j + 1));
    }
  }

  lemma MessageOnce(st: Settings, m: Message, i: nat)
    ensures NoRepeats(MessageFound(st, m, i))
  {
    if m.content.Some? && m.content.value.Parts? {
      PartsOnce(m.content.value.parts, i, 0);
    }
    if st.scanToolArguments && m.toolCalls.Some? {
      var calls := CallsFound(m.toolCalls.value, i, 0);
      CallsOnce(m.toolCalls.value, i, 0);
      forall f, g | f in ContentFound(m.content, i) && g in calls ensures f.slot != g.slot {
        ContentFoundIff(m, i, f);
        CallsFoundIff(m.toolCalls.value, i, 0, g);
      }
      NoRepeatsConcat(ContentFound(m.content, i), calls);
    }
  }

  /** No text is collected twice. */
  lemma {:induction false} CollectedOnce(st: Settings, ms: seq<Message>, i: nat)
    requires i <= |ms|
    ensures NoRepeats(AllFound(st, ms, i))
    decreases |ms| - i
  {
    if i < |ms| {
      MessageOnce(st, ms[i], i);
      CollectedOnce(st, ms, i + 1);
      forall f, g | f in MessageFound(st, ms[i], i) && g in AllFound(st, ms, i + 1) ensures f.slot != g.slot {
        MessageFoundIff(st, ms[i], i, f);
        AllFoundFromIff(st, ms, i + 1, g);
      }
      NoRepeatsConcat(MessageFound(st, ms[i], i), AllFound(st, ms, i + 1));
    }
  }

  function BlankPart(p: ContentPart): ContentPart {
    if p.TextPart? then TextPart("") else p
  }

  /** A message with all its texts and tool arguments taken out. */
  function Blank(m: Message): Message {
    m.(content :=
         if m.content.None? then None
         else if m.content.value.Text? then Some(Text(""))
         else Some(Parts(seq(|m.content.value.parts|, j requires 0 <= j < |m.content.value.parts| =>
                               BlankPart(m.content.value.parts[j])))),
       toolCalls :=
         if m.toolCalls.None? then None
         else Some(seq(|m.toolCalls.value|, j requires 0 <= j < |m.toolCalls.value| =>
                         m.toolCalls.value[j].(arguments := ""))))
  }

  /** A rewrite changes nothing but texts. */
  lemma RewriteKeepsBlank(st: Settings, f: Rewriter, m: Message)
    ensures Blank(RewriteMessage(st, f, m)) == Blank(m)
  {
    var r := RewriteMessage(st, f, m);
    if m.content.Some? && m.content.value.Parts? {
      assert Blank(r).content.value.parts == Blank(m).content.value.parts;
    }
    if m.toolCalls.Some? {
      assert Blank(r).toolCalls.value == Blank(m).toolCalls.value;
    }
  }

  /** And exactly the scanned texts that the rewriter has something for. */
  lemma RewriteAt(st: Settings, f: Rewriter, ms: seq<Message>, slot: Slot)
    ensures TextAt(RewriteAll(st, f, ms), slot)
         == if Scanned(st, ms, slot) && f(TextAt(ms, slot).value).Some? then f(TextAt(ms, slot).value)
            else TextAt(ms, slot)
  {
  }

  // ---------------------------------------------------------------------------
  // The engine pass
  // ---------------------------------------------------------------------------

  datatype Redacted = Redacted(text: string, replaced: seq<(string, nat)>)

  /** The engine under the options in force: rewritten text with counts, or entity types hit. */
  datatype Engine<!E> = Engine(
    redact: string -> Result<Redacted, E>,
    scan: string -> Result<seq<string>, E>)

  type Counts = map<string, nat>

  function CountOf(counts: Counts, entity: string): nat {
    if entity in counts then counts[entity] else 0
  }

  function Tally(counts: Counts, hits: seq<(string, nat)>): Counts
    decreases |hits|
  {
    if hits == [] then counts
    else Tally(counts[hits[0].0 := CountOf(counts, hits[0].0) + hits[0].1], hits[1..])
  }

  /** Occurrences of an entity among hits. */
  function Total(hits: seq<(string, nat)>, entity: string): nat {
    if hits == [] then 0 else (if hits[0].0 == entity then hits[0].1 else 0) + Total(hits[1..], entity)
  }

  /** What one segment contributes: its hits and, in redact mode, its new text if there were any. */
  datatype Segment = Segment(newText: Option<string>, hits: seq<(string, nat)>)

  function SegmentOf<E>(engine: Engine<E>, mode: Mode, text: string): Result<Segment, E> {
    if mode.Redact? then
      match engine.redact(text)
      case Err(e) => Err(e)
      case Ok(out) => Ok(Segment(if out.replaced == [] then None else Some(out.text), out.replaced))
    else
      match engine.scan(text)
      case Err(e) => Err(e)
      case Ok(types) => Ok(Segment(None, seq(|types|, i requires 0 <= i < |types| => (types[i], 1))))
  }

  /** Segment by segment from `k` on; the first failure ends the pass. */
  function Pass<E>(engine: Engine<E>, mode: Mode, found: seq<Found>, k: nat, counts: Counts)
    : Result<Counts, E>
    requires k <= |found|
    decreases |found| - k
  {
    if k == |found| then Ok(counts) else
      match SegmentOf(engine, mode, found[k].text)
      case Err(e) => Err(e)
      case Ok(s) => Pass(engine, mode, found, k + 1, Tally(counts, s.hits))
  }

  /** The rewriting the engine stands for in a mode. */
  function RewriterOf<E>(engine: Engine<E>, mode: Mode): Rewriter {
    (text: string) =>
      var s := SegmentOf(engine, mode, text);
      if s.Ok? then s.value.newText else None
  }

  /** The engine has no answer for a text: it is asked to redact, or to scan, as the mode says. */
  predicate FailsOn<E>(engine: Engine<E>, mode: Mode, text: string) {
    if mode.Redact? then engine.redact(text).Err? else engine.scan(text).Err?
  }

  /** It finds something in the text. */
  predicate HitsOn<E>(engine: Engine<E>, mode: Mode, text: string) {
    if mode.Redact? then engine.redact(text).Ok? && engine.redact(text).value.replaced != []
    else engine.scan(text).Ok? && engine.scan(text).value != []
  }

  function Occurrences(types: seq<string>, entity: string): nat {
    if types == [] then 0 else (if types[0] == entity then 1 else 0) + Occurrences(types[1..], entity)
  }

  /** How often an entity is found in a text: as the replacements say, or once per scanned type. */
  function CountIn<E>(engine: Engine<E>, mode: Mode, text: string, entity: string): nat {
    if FailsOn(engine, mode, text) then 0
    else if mode.Redact? then Total(engine.redact(text).value.replaced, entity)
    else Occurrences(engine.scan(text).value, entity)
  }

  function CountAmong<E>(engine: Engine<E>, mode: Mode, found: seq<Found>, k: nat, entity: string): nat
    requires k <= |found|
    decreases |found| - k
  {
    if k == |found| then 0
    else CountIn(engine, mode, found[k].text, entity) + CountAmong(engine, mode, found, k + 1, entity)
  }

  function Ones(types: seq<string>): (hits: seq<(string, nat)>)
    ensures |hits| == |types|
  {
    seq(|types|, i requires 0 <= i < |types| => (types[i], 1))
  }

  lemma {:induction false} TotalOfOnes(types: seq<string>, entity: string)
    ensures Total(Ones(types), entity) == Occurrences(types, entity)
    decreases |types|
  {
    if types != [] {
      TotalOfOnes(types[1..], entity);
      assert Ones(types)[1..] == Ones(types[1..]);
    }
  }

  /** What a segment contributes, told by the engine's own answer. */
  lemma SegmentInWords<E>(engine: Engine<E>, mode: Mode, text: string, entity: string)
    ensures var s := SegmentOf(engine, mode, text);
            && (s.Err? <==> FailsOn(engine, mode, text))
            && (s.Ok? ==>
                  && s.value.newText == (if mode.Redact? && HitsOn(engine, mode, text)
                                         then Some(engine.redact(text).value.text) else None)
                  && Total(s.value.hits, entity) == CountIn(engine, mode, text, entity)
                  && (s.value.hits != [] <==> HitsOn(engine, mode, text)))
  {
    if !mode.Redact? && engine.scan(text).Ok? {
      TotalOfOnes(engine.scan(text).value, entity);
      assert SegmentOf(engine, mode, text).value.hits == Ones(engine.scan(text).value);
    }
  }

  /** What a pass yields, told by the engine's answers. */
  lemma {:induction false} PassInWords<E>(
      engine: Engine<E>, mode: Mode, found: seq<Found>, k: nat, counts: Counts, entity: string)
    requires k <= |found|
    ensures var pass := Pass(engine, mode, found, k, counts);
            && (pass.Err? <==> exists j :: k <= j < |found| && FailsOn(engine, mode, found[j].text))
            && (pass.Ok? ==>
                  && CountOf(pass.value, entity)
                     == CountOf(counts, entity) + CountAmong(engine, mode, found, k, entity)
                  && (pass.value != map[] <==>
                        counts != map[] || exists j :: k <= j < |found| && HitsOn(engine, mode, found[j].text)))
    decreases |found| - k
  {
    if k < |found| {
      SegmentInWords(engine, mode, found[k].text, entity);
      var s := SegmentOf(engine, mode, found[k].text);
      if s.Ok? {
        TallyFacts(counts, s.value.hits, entity);
        PassInWords(engine, mode, found, k + 1, Tally(counts, s.value.hits), entity);
      }
    }
  }

  ghost predicate PassTold<E>(engine: Engine<E>, mode: Mode, found: seq<Found>, entity: string) {
    var pass := Pass(engine, mode, found, 0, map[]);
    && (pass.Err? <==> exists j :: 0 <= j < |found| && FailsOn(engine, mode, found[j].text))
    && (pass.Ok? ==>
          && CountOf(pass.value, entity) == CountAmong(engine, mode, found, 0, entity)
          && (pass.value != map[] <==> exists j :: 0 <= j < |found| && HitsOn(engine, mode, found[j].text)))
  }

  method RunEngine<E>(engine: Engine<E>, found: seq<Found>, mode: Mode)
    returns (result: Result<(seq<Option<string>>, Counts), E>)
    ensures var pass := Pass(engine, mode, found, 0, map[]);
            match result
            case Err(e) => pass == Err(e)
            case Ok((rewritten, counts)) =>
              && pass == Ok(counts)
              && |rewritten| == |found|
              && forall k :: 0 <= k < |found| ==> rewritten[k] == RewriterOf(engine, mode)(found[k].text)
    ensures result.Err? <==> exists k :: 0 <= k < |found| && FailsOn(engine, mode, found[k].text)
    ensures result.Ok? ==>
              && |result.value.0| == |found|
              && (forall k :: 0 <= k < |found| ==>
                    result.value.0[k] == if mode.Redact? && HitsOn(engine, mode, found[k].text)
                                         then Some(engine.redact(found[k].text).value.text) else None)
              && (forall entity ::
                    CountOf(result.value.1, entity) == CountAmong(engine, mode, found, 0, entity))
  {
    forall entity ensures PassTold(engine, mode, found, entity) {
      PassInWords(engine, mode, found, 0, map[], entity);
    }
    assert PassTold(engine, mode, found, "");
    var rewritten: seq<Option<string>> := [];
    var counts: Counts := map[];
    for k := 0 to |found|
      invariant |rewritten| == k
      invariant forall j :: 0 <= j < k ==> rewritten[j] == RewriterOf(engine, mode)(found[j].text)
      invariant Pass(engine, mode, found, 0, map[]) == Pass(engine, mode, found, k, counts)
    {
      var segment := SegmentOf(engine, mode, found[k].text);
      if segment.Err? {
        return Err(segment.error);
      }
      counts := Tally(counts, segment.value.hits);
      rewritten := rewritten + [segment.value.newText];
    }
    forall k | 0 <= k < |found|
      ensures rewritten[k] == if mode.Redact? && HitsOn(engine, mode, found[k].text)
                              then Some(engine.redact(found[k].text).value.text) else None
    {
      SegmentInWords(engine, mode, found[k].text, "");
    }
    forall entity ensures CountOf(counts, entity) == CountAmong(engine, mode, found, 0, entity) {
      assert PassTold(engine, mode, found, entity);
    }
    return Ok((rewritten, counts));
  }

  lemma {:induction false} TallyFacts(counts: Counts, hits: seq<(string, nat)>, entity: string)
    ensures CountOf(Tally(counts, hits), entity) == CountOf(counts, entity) + Total(hits, entity)
    ensures Tally(counts, hits) == map[] <==> counts == map[] && hits == []
    decreases |hits|
  {
    if hits != [] {
      var next := counts[hits[0].0 := CountOf(counts, hits[0].0) + hits[0].1];
      assert hits[0].0 in next;
      TallyFacts(next, hits[1..], entity);
    }
  }

  /** All hits of a pass that does not fail. */
  function AllHits<E>(engine: Engine<E>, mode: Mode, found: seq<Found>, k: nat): seq<(string, nat)>
    requires k <= |found|
    decreases |found| - k
  {
    if k == |found| then [] else
      var s := SegmentOf(engine, mode, found[k].text);
      (if s.Ok? then s.value.hits else []) + AllHits(engine, mode, found, k + 1)
  }

  lemma {:induction false} TotalConcat(a: seq<(string, nat)>, b: seq<(string, nat)>, entity: string)
    ensures Total(a + b, entity) == Total(a, entity) + Total(b, entity)
    decreases |a|
  {
    if a == [] {
      assert a + b == b;
    } else {
      assert (a + b)[0] == a[0] && (a + b)[1..] == a[1..] + b;
      TotalConcat(a[1..], b, entity);
    }
  }

  /**
   A pass fails exactly when some segment does; otherwise the counts are the totals over
   all segments, and empty exactly when nothing was hit.
   */
  lemma {:induction false} PassFacts<E>(
      engine: Engine<E>, mode: Mode, found: seq<Found>, k: nat, counts: Counts, entity: string)
    requires k <= |found|
    ensures var pass := Pass(engine, mode, found, k, counts);
            && (pass.Err? <==> exists j :: k <= j < |found| && SegmentOf(engine, mode, found[j].text).Err?)
            && (pass.Ok? ==>
                  && CountOf(pass.value, entity)
                     == CountOf(counts, entity) + Total(AllHits(engine, mode, found, k), entity)
                  && (pass.value == map[] <==> counts == map[] && AllHits(engine, mode, found, k) == []))
    decreases |found| - k
  {
    if k < |found| {
      var s := SegmentOf(engine, mode, found[k].text);
      if s.Ok? {
        TallyFacts(counts, s.value.hits, entity);
        TotalConcat(s.value.hits, AllHits(engine, mode, found, k + 1), entity);
        PassFacts(engine, mode, found, k + 1, Tally(counts, s.value.hits), entity);
      }
    }
  }

  // ---------------------------------------------------------------------------
  // A request and the engine's answers
  // ---------------------------------------------------------------------------

  /** Some text to be scanned has no answer. */
  ghost predicate SomeFails<E>(st: Settings, engine: Engine<E>, ms: seq<Message>) {
    exists slot :: Scanned(st, ms, slot) && FailsOn(engine, st.mode, TextAt(ms, slot).value)
  }

  /** Something is found in some text to be scanned. */
  ghost predicate SomeHit<E>(st: Settings, engine: Engine<E>, ms: seq<Message>) {
    exists slot :: Scanned(st, ms, slot) && HitsOn(engine, st.mode, TextAt(ms, slot).value)
  }

  /** The engine names the entity for the text. */
  ghost predicate NamedIn<E>(engine: Engine<E>, mode: Mode, text: string, entity: string) {
    if mode.Redact? then engine.redact(text).Ok? && exists n :: (entity, n) in engine.redact(text).value.replaced
    else engine.scan(text).Ok? && entity in engine.scan(text).value
  }

  ghost predicate SomeNamed<E>(st: Settings, engine: Engine<E>, ms: seq<Message>, entity: string) {
    exists slot :: Scanned(st, ms, slot) && NamedIn(engine, st.mode, TextAt(ms, slot).value, entity)
  }

  /** The text in the place of another: the engine's where it replaced something. */
  ghost predicate Replaced<E>(
      st: Settings, engine: Engine<E>, before: seq<Message>, after: seq<Message>, slot: Slot) {
    if Scanned(st, before, slot) && engine.redact(TextAt(before, slot).value).Ok?
       && engine.redact(TextAt(before, slot).value).value.replaced != []
    then TextAt(after, slot) == Some(engine.redact(TextAt(before, slot).value).value.text)
    else TextAt(after, slot) == TextAt(before, slot)
  }

  /** Texts in scope are the engine's where it replaced something; nothing else is different. */
  ghost predicate Reworked<E>(st: Settings, engine: Engine<E>, before: seq<Message>, after: seq<Message>) {
    && |after| == |before|
    && (forall i :: 0 <= i < |before| ==> Blank(after[i]) == Blank(before[i]))
    && (forall slot :: Replaced(st, engine, before, after, slot))
  }

  lemma RewrittenIsReworked<E>(st: Settings, engine: Engine<E>, ms: seq<Message>)
    requires st.mode.Redact?
    ensures Reworked(st, engine, ms, RewriteAll(st, RewriterOf(engine, st.mode), ms))
  {
    var f := RewriterOf(engine, st.mode);
    var after := RewriteAll(st, f, ms);
    forall i | 0 <= i < |ms| ensures Blank(after[i]) == Blank(ms[i]) {
      RewriteKeepsBlank(st, f, ms[i]);
    }
    forall slot ensures Replaced(st, engine, ms, after, slot) {
      RewriteAt(st, f, ms, slot);
      if Scanned(st, ms, slot) {
        SegmentInWords(engine, st.mode, TextAt(ms, slot).value, "");
      }
    }
  }

  lemma {:induction false} TallyNames(counts: Counts, hits: seq<(string, nat)>, entity: string)
    ensures entity in Tally(counts, hits) <==> entity in counts || exists n :: (entity, n) in hits
    decreases |hits|
  {
    if hits != [] {
      TallyNames(counts[hits[0].0 := CountOf(counts, hits[0].0) + hits[0].1], hits[1..], entity);
      assert hits == [hits[0]] + hits[1..];
      assert hits[0] == (hits[0].0, hits[0].1);
    }
  }

  lemma SegmentNames<E>(engine: Engine<E>, mode: Mode, text: string, counts: Counts, entity: string)
    ensures var s := SegmentOf(engine, mode, text);
            s.Ok? ==> (entity in Tally(counts, s.value.hits)
                       <==> entity in counts || NamedIn(engine, mode, text, entity))
  {
    var s := SegmentOf(engine, mode, text);
    if s.Ok? {
      TallyNames(counts, s.value.hits, entity);
      if !mode.Redact? {
        var types := engine.scan(text).value;
        assert s.value.hits == Ones(types);
        forall i | 0 <= i < |types| ensures (types[i], 1) in Ones(types) {
          assert Ones(types)[i] == (types[i], 1);
        }
      }
    }
  }

  lemma {:induction false} PassNames<E>(
      engine: Engine<E>, mode: Mode, found: seq<Found>, k: nat, counts: Counts, entity: string)
    requires k <= |found|
    ensures var pass := Pass(engine, mode, found, k, counts);
            pass.Ok? ==> (entity in pass.value
                          <==> entity in counts || exists j :: k <= j < |found| && NamedIn(engine, mode, found[j].text, entity))
    decreases |found| - k
  {
    if k < |found| {
      SegmentNames(engine, mode, found[k].text, counts, entity);
      var s := SegmentOf(engine, mode, found[k].text);
      if s.Ok? {
        PassNames(engine, mode, found, k + 1, Tally(counts, s.value.hits), entity);
      }
    }
  }

  /** A collected text is a scanned one, and the other way round. */
  lemma SomeFound(st: Settings, ms: seq<Message>, p: string -> bool)
    ensures (exists k :: 0 <= k < |AllFound(st, ms, 0)| && p(AllFound(st, ms, 0)[k].text))
            <==> exists slot :: Scanned(st, ms, slot) && p(TextAt(ms, slot).value)
  {
    var found := AllFound(st, ms, 0);
    if k :| 0 <= k < |found| && p(found[k].text) {
      CollectedIff(st, ms, found[k]);
      assert Scanned(st, ms, found[k].slot) && p(TextAt(ms, found[k].slot).value);
    }
    if slot :| Scanned(st, ms, slot) && p(TextAt(ms, slot).value) {
      var f := Found(slot, TextAt(ms, slot).value);
      CollectedIff(st, ms, f);
      var k :| 0 <= k < |found| && found[k] == f;
      assert p(found[k].text);
    }
  }

  /** What is noted: how often each entity was found, and no entity that was not. */
  ghost predicate Noted<E>(st: Settings, engine: Engine<E>, ms: seq<Message>, counts: Counts) {
    && (forall entity :: CountOf(counts, entity) == CountAmong(engine, st.mode, AllFound(st, ms, 0), 0, entity))
    && (forall entity :: entity in counts <==> SomeNamed(st, engine, ms, entity))
  }

  /** The pass over a request, told by its texts and the engine's answers. */
  lemma RequestInWords<E>(st: Settings, engine: Engine<E>, ms: seq<Message>)
    ensures var pass := Pass(engine, st.mode, AllFound(st, ms, 0), 0, map[]);
            && (pass.Err? <==> SomeFails(st, engine, ms))
            && (pass.Ok? ==> (pass.value != map[] <==> SomeHit(st, engine, ms)))
            && (pass.Ok? ==> Noted(st, engine, ms, pass.value))
  {
    var found := AllFound(st, ms, 0);
    PassInWords(engine, st.mode, found, 0, map[], "");
    SomeFound(st, ms, text => FailsOn(engine, st.mode, text));
    SomeFound(st, ms, text => HitsOn(engine, st.mode, text));
    var pass := Pass(engine, st.mode, found, 0, map[]);
    if pass.Ok? {
      forall entity ensures CountOf(pass.value, entity) == CountAmong(engine, st.mode, found, 0, entity) {
        PassInWords(engine, st.mode, found, 0, map[], entity);
      }
      forall entity ensures entity in pass.value <==> SomeNamed(st, engine, ms, entity) {
        PassNames(engine, st.mode, found, 0, map[], entity);
        SomeFound(st, ms, text => NamedIn(engine, st.mode, text, entity));
      }
    }
  }

  // ---------------------------------------------------------------------------
  // The plugin
  // ---------------------------------------------------------------------------

  datatype PluginError =
    | Internal
    | Rejected(entities: set<string>)

  datatype Note = Note(action: Mode, entities: Counts)

  function Named(note: Option<Note>): set<string> {
    if note.Some? then note.value.entities.Keys else {}
  }

  class Context {
    var messages: seq<Message>
    var note: Option<Note>

    constructor (messages: seq<Message>)
      ensures this.messages == messages && note == None
    {
      this.messages := messages;
      note := None;
    }

    method WriteBack(slot: Slot, text: string)
      requires slot.msg < |messages|
      modifies this`messages
      ensures messages == old(messages)[slot.msg := WriteInto(old(messages)[slot.msg], slot, text)]
    {
      var i := slot.msg;
      match slot {
        case WholeText(_) =>
          messages := messages[i := messages[i].(content := Some(Text(text)))];
        case PartText(_, j) =>
          if messages[i].content.Some? && messages[i].content.value.Parts?
             && j < |messages[i].content.value.parts| && messages[i].content.value.parts[j].TextPart? {
            var parts := messages[i].content.value.parts[j := TextPart(text)];
            messages := messages[i := messages[i].(content := Some(Parts(parts)))];
          }
        case ToolArg(_, j) =>
          if messages[i].toolCalls.Some? && j < |messages[i].toolCalls.value| {
            var calls := messages[i].toolCalls.value;
            messages := messages[i := messages[i].(toolCalls := Some(calls[j := calls[j].(arguments := text)]))];
          }
      }
    }

    method WriteAllBack(ghost f: Rewriter, found: seq<Found>, rewritten: seq<Option<string>>)
      requires Within(found, |messages|) && |rewritten| == |found|
      requires forall k :: 0 <= k < |found| ==> rewritten[k] == f(found[k].text)
      modifies this`messages
      ensures messages == WriteAll(f, old(messages), found)
    {
      assert found[0..] == found;
      for k := 0 to |found|
        invariant |messages| == |old(messages)|
        invariant WriteAll(f, messages, found[k..]) == WriteAll(f, old(messages), found)
      {
        assert found[k..][0] == found[k] && found[k..][1..] == found[k + 1..];
        ghost var i := found[k].slot.msg;
        assert messages[i := messages[i]] == messages;
        if rewritten[k].Some? {
          WriteBack(found[k].slot, rewritten[k].value);
        }
      }
    }

    method Execute<E>(settings: Option<Settings>, engine: Engine<E>) returns (result: Result<(), PluginError>)
      modifies this
      ensures settings.None? ==> result == Ok(()) && messages == old(messages) && note == old(note)
      ensures settings.Some? ==>
                var st := settings.value;
                var f := RewriterOf(engine, st.mode);
                match Pass(engine, st.mode, AllFound(st, old(messages), 0), 0, map[])
                case Err(_) =>
                  && messages == old(messages) && note == old(note)
                  && result == (if st.failOpen then Ok(()) else Err(Internal))
                case Ok(counts) =>
                  && messages == (if st.mode.Redact? then RewriteAll(st, f, old(messages)) else old(messages))
                  && note == (if counts == map[] then old(note) else Some(Note(st.mode, counts)))
                  && result == (if st.mode.Block? && counts != map[] then Err(Rejected(counts.Keys)) else Ok(()))
      ensures settings.Some? && SomeFails(settings.value, engine, old(messages)) ==>
                && messages == old(messages) && note == old(note)
                && result == (if settings.value.failOpen then Ok(()) else Err(Internal))
      ensures settings.Some? && !SomeFails(settings.value, engine, old(messages)) ==>
                && (settings.value.mode.Redact? ==> Reworked(settings.value, engine, old(messages), messages))
                && (!settings.value.mode.Redact? ==> messages == old(messages))
                && (result == Err(Rejected(Named(note)))
                    <==> settings.value.mode.Block? && SomeHit(settings.value, engine, old(messages)))
                && (result != Ok(()) ==> result == Err(Rejected(Named(note))))
      ensures settings.Some? && !SomeFails(settings.value, engine, old(messages)) ==>
                if SomeHit(settings.value, engine, old(messages))
                then && note.Some? && note.value.action == settings.value.mode
                     && Noted(settings.value, engine, old(messages), note.value.entities)
                else note == old(note)
    {
      if settings.None? {
        return Ok(());
      }
      var st := settings.value;
      RequestInWords(st, engine, messages);
      if st.mode.Redact? {
        RewrittenIsReworked(st, engine, messages);
      }
      ghost var f := RewriterOf(engine, st.mode);
      var found := CollectSlots(st, messages);
      WriteBackIsRewrite(st, f, messages);
      if found == [] {
        return Ok(());
      }
      var output := RunEngine(engine, found, st.mode);
      if output.Err? {
        return if st.failOpen then Ok(()) else Err(Internal);
      }
      var (rewritten, counts) := output.value;
      if counts == map[] {
        NothingHit(engine, st.mode, found, messages);
        return Ok(());
      }
      note := Some(Note(st.mode, counts));
      match st.mode {
        case Redact =>
          WriteAllBack(f, found, rewritten);
          return Ok(());
        case Block =>
          return Err(Rejected(counts.Keys));
        case Observe =>
          return Ok(());
      }
    }
  }

  /** If nothing was hit there is nothing to rewrite. */
  lemma NothingHit<E>(engine: Engine<E>, mode: Mode, found: seq<Found>, ms: seq<Message>)
    requires Within(found, |ms|) && Pass(engine, mode, found, 0, map[]) == Ok(map[])
    ensures WriteAll(RewriterOf(engine, mode), ms, found) == ms
  {
    PassFacts(engine, mode, found, 0, map[], "");
    NoHitsNoWrites(engine, mode, found, 0, ms);
    assert found[0..] == found;
  }

  lemma {:induction false} NoHitsNoWrites<E>(engine: Engine<E>, mode: Mode, found: seq<Found>, k: nat, ms: seq<Message>)
    requires k <= |found| && Within(found, |ms|) && AllHits(engine, mode, found, k) == []
    ensures Within(found[k..], |ms|)
    ensures WriteAll(RewriterOf(engine, mode), ms, found[k..]) == ms
    decreases |found| - k
  {
    if k < |found| {
      assert found[k..][0] == found[k] && found[k..][1..] == found[k + 1..];
      NoHitsNoWrites(engine, mode, found, k + 1, ms);
      var i := found[k].slot.msg;
      assert RewriterOf(engine, mode)(found[k].text).None?;
      assert ms[i := ms[i]] == ms;
    }
  }

  // ---------------------------------------------------------------------------
  // Which settings govern a request
  // ---------------------------------------------------------------------------

  datatype Section = Section(enabled: bool, settings: Settings)

  /** A configuration: the sections of the request's scopes, widest first, and the global one. */
  datatype Sections = Sections(scopes: seq<Option<Section>>, global: Section)

  /** The most specific scope that has a section. */
  function ScopedSection(scopes: seq<Option<Section>>): Option<Section> {
    if scopes == [] then None
    else if scopes[|scopes| - 1].Some? then scopes[|scopes| - 1]
    else ScopedSection(scopes[..|scopes| - 1])
  }

  function EffectiveSettings(config: Option<Sections>, defaults: Option<Settings>): Option<Settings> {
    if config.Some? && ScopedSection(config.value.scopes).Some? then
      var section := ScopedSection(config.value.scopes).value;
      if section.enabled then Some(section.settings) else None
    else if config.Some? && config.value.global.enabled then
      Some(config.value.global.settings)
    else defaults
  }

  /** The most specific scope with a section decides alone, also when it switches the guardrail off. */
  lemma {:induction false} MostSpecificSectionDecides(
      scopes: seq<Option<Section>>, i: nat, global: Section, defaults: Option<Settings>)
    requires i < |scopes| && scopes[i].Some?
    requires forall j :: i < j < |scopes| ==> scopes[j].None?
    ensures EffectiveSettings(Some(Sections(scopes, global)), defaults)
         == if scopes[i].value.enabled then Some(scopes[i].value.settings) else None
    decreases |scopes|
  {
    if i < |scopes| - 1 {
      MostSpecificSectionDecides(scopes[..|scopes| - 1], i, global, defaults);
    }
  }

  /** Without any scoped section the global one decides if it is enabled, and the defaults otherwise. */
  lemma {:induction false} NoSectionFallsThrough(
      scopes: seq<Option<Section>>, global: Section, defaults: Option<Settings>)
    requires forall j :: 0 <= j < |scopes| ==> scopes[j].None?
    ensures EffectiveSettings(Some(Sections(scopes, global)), defaults)
         == if global.enabled then Some(global.settings) else defaults
    ensures EffectiveSettings(None, defaults) == defaults
    decreases |scopes|
  {
    if scopes != [] {
      NoSectionFallsThrough(scopes[..|scopes| - 1], global, defaults);
    }
  }
}
