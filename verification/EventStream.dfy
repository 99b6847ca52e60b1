/** Server-sent events: the server's printer, and the parser that the standard gives to the browser. */
module EventStream {
  import opened Common

  datatype Event = Event(kind: string, data: string, id: string)

  const LF := '\n'
  const CR := '\r'
  const NUL := '\0'
  const BOM := '\U{FEFF}'

  // ---------- printing ----------

  function Field(name: string, value: string): string {
    name + ": " + value
  }

  function Print(e: Event): string {
    Field("event", e.kind) + "\n" + (Field("data", e.data) + "\n" + (Field("id", e.id) + "\n" + "\n"))
  }

  function PrintAll(es: seq<Event>): string {
    if es == [] then "" else Print(es[0]) + PrintAll(es[1..])
  }

  // ---------- parsing, sections 9.2.5 and 9.2.6 of the WHATWG HTML Living Standard ----------

  predicate IsBreak(c: char) {
    c == LF || c == CR
  }

  function FirstBreak(s: string): (k: nat)
    ensures k <= |s|
    ensures k < |s| ==> IsBreak(s[k])
    ensures forall j | 0 <= j < k :: !IsBreak(s[j])
  {
    if s == "" || IsBreak(s[0]) then 0 else 1 + FirstBreak(s[1..])
  }

  /** Where the next line starts; a carriage return takes the line feed after it along. */
  function NextLine(s: string, k: nat): (next: nat)
    requires k < |s|
    ensures k < next <= |s|
  {
    if s[k] == CR && k + 1 < |s| && s[k + 1] == LF then k + 2 else k + 1
  }

  /** The lines that a carriage return, a line feed or the two together end; what follows the last end is no line. */
  function Lines(s: string): seq<string>
    decreases |s|
  {
    var k := FirstBreak(s);
    if k == |s| then [] else [s[..k]] + Lines(s[NextLine(s, k)..])
  }

  function FirstColon(s: string): (k: nat)
    ensures k <= |s|
    ensures k < |s| ==> s[k] == ':'
    ensures forall j | 0 <= j < k :: s[j] != ':'
  {
    if s == "" || s[0] == ':' then 0 else 1 + FirstColon(s[1..])
  }

  predicate Digits(s: string) {
    s != "" && forall c | c in s :: '0' <= c <= '9'
  }

  datatype Parser = Parser(data: string, kind: string, id: string, retry: Option<string>, events: seq<Event>)

  const START := Parser("", "", "", None, [])

  function ProcessField(p: Parser, name: string, value: string): Parser {
    if name == "event" then p.(kind := value)
    else if name == "data" then p.(data := p.data + value + [LF])
    else if name == "id" then (if NUL in value then p else p.(id := value))
    else if name == "retry" then (if Digits(value) then p.(retry := Some(value)) else p)
    else p
  }

  /** An event without data is dropped; an event without a type is a message. */
  function Dispatch(p: Parser): Parser {
    if p.data == "" then p.(kind := "")
    else
      var data := if Last(p.data) == LF then p.data[..|p.data| - 1] else p.data;
      var kind := if p.kind == "" then "message" else p.kind;
      p.(data := "", kind := "", events := p.events + [Event(kind, data, p.id)])
  }

  function ProcessLine(p: Parser, line: string): Parser {
    if line == "" then Dispatch(p)
    else
      var k := FirstColon(line);
      if k == 0 then p
      else if k == |line| then ProcessField(p, line, "")
      else
        var value := line[k + 1..];
        ProcessField(p, line[..k], if value != "" && value[0] == ' ' then value[1..] else value)
  }

  function ProcessLines(p: Parser, ls: seq<string>): Parser
    decreases |ls|
  {
    if ls == [] then p else ProcessLines(ProcessLine(p, ls[0]), ls[1..])
  }

  function WithoutMark(s: string): string {
    if s != "" && s[0] == BOM then s[1..] else s
  }

  /** The events dispatched by the time the stream ends; whatever is pending then is discarded. */
  function Parse(s: string): seq<Event> {
    ProcessLines(START, Lines(WithoutMark(s))).events
  }

  // ---------- events that survive the trip ----------

  predicate Unbroken(s: string) {
    forall k | 0 <= k < |s| :: !IsBreak(s[k])
  }

  predicate Plain(e: Event) {
    e.kind != "" && Unbroken(e.kind) && Unbroken(e.data) && Unbroken(e.id) && NUL !in e.id
  }

  lemma {:induction false} FirstBreakIs(s: string, k: nat)
    requires k < |s| && IsBreak(s[k]) && forall j | 0 <= j < k :: !IsBreak(s[j])
    ensures FirstBreak(s) == k
  {
  }

  lemma {:induction false} FirstColonIs(s: string, k: nat)
    requires k < |s| && s[k] == ':' && forall j | 0 <= j < k :: s[j] != ':'
    ensures FirstColon(s) == k
  {
  }

  lemma {:induction false} LineThen(a: string, rest: string)
    requires Unbroken(a)
    ensures Lines(a + "\n" + rest) == [a] + Lines(rest)
  {
    var s := a + "\n" + rest;
    FirstBreakIs(s, |a|);
    assert s[|a|] == LF && s[..|a|] == a && s[|a| + 1..] == rest;
  }

  lemma {:induction false} ProcessAppend(p: Parser, a: seq<string>, b: seq<string>)
    ensures ProcessLines(p, a + b) == ProcessLines(ProcessLines(p, a), b)
    decreases |a|
  {
    if a == [] {
      assert a + b == b;
    } else {
      assert (a + b)[0] == a[0] && (a + b)[1..] == a[1..] + b;
      ProcessAppend(ProcessLine(p, a[0]), a[1..], b);
    }
  }

  /** The three fields as the printer writes them. */
  lemma {:induction false} FieldLines(p: Parser, value: string)
    ensures ProcessLine(p, Field("event", value)) == p.(kind := value)
    ensures ProcessLine(p, Field("data", value)) == p.(data := p.data + value + [LF])
    ensures ProcessLine(p, Field("id", value)) == if NUL in value then p else p.(id := value)
  {
    var e, d, i := Field("event", value), Field("data", value), Field("id", value);
    FirstColonIs(e, 5);
    FirstColonIs(d, 4);
    FirstColonIs(i, 2);
    assert e[..5] == "event" && e[6..][0] == ' ' && e[6..][1..] == value;
    assert d[..4] == "data" && d[5..][0] == ' ' && d[5..][1..] == value;
    assert i[..2] == "id" && i[3..][0] == ' ' && i[3..][1..] == value;
  }

  lemma {:induction false} FieldUnbroken(name: string, value: string)
    requires Unbroken(name) && Unbroken(value)
    ensures Unbroken(Field(name, value)) && Field(name, value) != ""
  {
  }

  lemma {:induction false} Reassociate(a: string, b: string, rest: string)
    ensures a + "\n" + b + rest == a + "\n" + (b + rest)
  {
  }

  lemma {:induction false} FourLines(a: string, b: string, c: string, rest: string)
    requires Unbroken(a) && Unbroken(b) && Unbroken(c)
    ensures Lines(a + "\n" + (b + "\n" + (c + "\n" + "\n")) + rest) == [a, b, c, ""] + Lines(rest)
  {
    hide Lines, Unbroken;
    Reassociate(a, b + "\n" + (c + "\n" + "\n"), rest);
    Reassociate(b, c + "\n" + "\n", rest);
    Reassociate(c, "\n", rest);
    LineThen(a, b + "\n" + (c + "\n" + "\n") + rest);
    LineThen(b, c + "\n" + "\n" + rest);
    LineThen(c, "\n" + rest);
    BlankLine(rest);
  }

  lemma {:induction false} BlankLine(rest: string)
    ensures Lines("\n" + rest) == [""] + Lines(rest)
  {
    LineThen("", rest);
    assert "" + "\n" + rest == "\n" + rest;
  }

  lemma {:induction false} PrintedLines(e: Event, rest: string)
    requires Plain(e)
    ensures Lines(Print(e) + rest) ==
      [Field("event", e.kind), Field("data", e.data), Field("id", e.id), ""] + Lines(rest)
  {
    FieldUnbroken("event", e.kind);
    FieldUnbroken("data", e.data);
    FieldUnbroken("id", e.id);
    hide Lines, Unbroken, Field;
    FourLines(Field("event", e.kind), Field("data", e.data), Field("id", e.id), rest);
  }

  lemma {:induction false} TwoSteps(p: Parser, a: string, b: string)
    ensures ProcessLines(p, [a, b]) == ProcessLine(ProcessLine(p, a), b)
  {
    hide ProcessLine;
    assert [a, b][1..] == [b] && [b][1..] == [];
    assert ProcessLines(p, [a, b]) == ProcessLines(ProcessLine(p, a), [b]);
  }

  lemma {:induction false} EventLines(p: Parser, e: Event)
    requires Plain(e) && p.data == "" && p.kind == ""
    ensures ProcessLines(p, [Field("event", e.kind), Field("data", e.data), Field("id", e.id), ""]) ==
      p.(id := e.id, events := p.events + [e])
  {
    hide ProcessLine, ProcessLines, Unbroken, Field;
    var a, b, c := Field("event", e.kind), Field("data", e.data), Field("id", e.id);
    FieldLines(p, e.kind);
    var p1 := p.(kind := e.kind);
    FieldLines(p1, e.data);
    var p2 := p1.(data := "" + e.data + [LF]);
    FieldLines(p2, e.id);
    var p3 := p2.(id := e.id);
    assert p3.data[..|p3.data| - 1] == e.data && Last(p3.data) == LF;
    TwoSteps(p, a, b);
    TwoSteps(p2, c, "");
    assert [a, b, c, ""] == [a, b] + [c, ""];
    ProcessAppend(p, [a, b], [c, ""]);
    Blank(p3);
  }

  lemma {:induction false} Blank(p: Parser)
    ensures ProcessLine(p, "") == Dispatch(p)
  {
  }

  lemma {:induction false} NoEvents(p: Parser)
    ensures ProcessLines(p, Lines("")) == p
  {
  }

  lemma {:induction false} HeadThenRest<T>(before: seq<T>, s: seq<T>)
    requires s != []
    ensures before + [s[0]] + s[1..] == before + s
  {
  }

  lemma {:induction false} AllEvents(p: Parser, es: seq<Event>)
    requires (forall e | e in es :: Plain(e)) && p.data == "" && p.kind == ""
    ensures var p' := ProcessLines(p, Lines(PrintAll(es)));
      p'.data == "" && p'.kind == "" && p'.events == p.events + es
    decreases |es|
  {
    hide ProcessLine, ProcessLines, Lines, Print, Field, Plain;
    if es == [] {
      NoEvents(p);
    } else {
      var e, rest := es[0], es[1..];
      PrintedLines(e, PrintAll(rest));
      EventLines(p, e);
      ProcessAppend(p, [Field("event", e.kind), Field("data", e.data), Field("id", e.id), ""], Lines(PrintAll(rest)));
      AllEvents(p.(id := e.id, events := p.events + [e]), rest);
      HeadThenRest(p.events, es);
    }
  }

  lemma {:induction false} PrintedHasNoMark(es: seq<Event>)
    ensures WithoutMark(PrintAll(es)) == PrintAll(es)
  {
    if es != [] {
      assert PrintAll(es)[0] == Print(es[0])[0] == 'e';
    }
  }

  /** Parsing what the server prints dispatches the events printed, in their order. */
  lemma {:induction false} RoundTrip(es: seq<Event>)
    requires forall e | e in es :: Plain(e)
    ensures Parse(PrintAll(es)) == es
  {
    PrintedHasNoMark(es);
    AllEvents(START, es);
  }

  // ---------- a connection that is cut ----------

  lemma {:induction false} FirstLine(s: string, k: nat)
    requires k < |s| && k == FirstBreak(s)
    ensures Lines(s) == [s[..k]] + Lines(s[NextLine(s, k)..])
  {
  }

  /** A first line that lies within a prefix is the prefix's first line too. */
  lemma {:induction false} FirstLineOfPrefix(s: string, k: nat)
    requires k <= |s| && FirstBreak(s) < k
    ensures var b := FirstBreak(s);
      FirstBreak(s[..k]) == b && s[..k][..b] == s[..b] &&
      NextLine(s[..k], b) == Min(NextLine(s, b), k) &&
      s[..k][NextLine(s[..k], b)..] == s[NextLine(s, b)..][..k - NextLine(s[..k], b)]
  {
    var b, t := FirstBreak(s), s[..k];
    FirstBreakIs(t, b);
    var next, next' := NextLine(s, b), NextLine(t, b);
    assert t[b] == s[b] && (b + 1 < k ==> t[b + 1] == s[b + 1]) && next' == Min(next, k);
    TailOfPrefix(s, k, next');
    if next > k { assert next' == k && s[next..][..0] == ""; }
  }

  lemma {:induction false} TailOfPrefix(s: string, k: nat, from: nat)
    requires from <= k <= |s|
    ensures s[..k][from..] == s[from..][..k - from]
  {
    forall i | 0 <= i < k - from ensures s[..k][from..][i] == s[from..][..k - from][i] {
    }
  }

  lemma {:induction false} NoLines(s: string)
    requires Unbroken(s)
    ensures Lines(s) == []
  {
  }

  lemma {:induction false} LinesOfPrefix(s: string, k: nat)
    requires k <= |s|
    ensures Lines(s[..k]) <= Lines(s)
    decreases |s|
  {
    hide Lines, NextLine;
    var b, t := FirstBreak(s), s[..k];
    if b < k {
      FirstLineOfPrefix(s, k);
      FirstLine(s, b);
      FirstLine(t, b);
      var rest := s[NextLine(s, b)..];
      LinesOfPrefix(rest, k - NextLine(t, b));
      SameHead(s[..b], Lines(t[NextLine(t, b)..]), Lines(rest));
    } else {
      NoLines(t);
    }
  }

  lemma {:induction false} SameHead<T>(x: T, s: seq<T>, t: seq<T>)
    requires s <= t
    ensures [x] + s <= [x] + t
  {
  }

  lemma {:induction false} EventsGrow(p: Parser, ls: seq<string>)
    ensures p.events <= ProcessLines(p, ls).events
    decreases |ls|
  {
    if ls != [] {
      EventsGrow(ProcessLine(p, ls[0]), ls[1..]);
    }
  }

  lemma {:induction false} CutText(t: string, k: nat)
    requires k <= |t|
    ensures ProcessLines(START, Lines(t[..k])).events <= ProcessLines(START, Lines(t)).events
  {
    hide Lines, ProcessLines;
    LinesOfPrefix(t, k);
    var whole := Lines(t);
    var n := |Lines(t[..k])|;
    assert Lines(t[..k]) == whole[..n] && whole == whole[..n] + whole[n..];
    ProcessAppend(START, whole[..n], whole[n..]);
    EventsGrow(ProcessLines(START, whole[..n]), whole[n..]);
  }

  /** Wherever a stream is cut, the events dispatched are the first of those of the whole stream. */
  lemma {:induction false} CutStream(s: string, k: nat)
    requires k <= |s|
    ensures Parse(s[..k]) <= Parse(s)
  {
    hide Lines, ProcessLines;
    var t := WithoutMark(s);
    if k == 0 {
      assert WithoutMark(s[..k]) == t[..0];
      CutText(t, 0);
    } else {
      var j := k - (|s| - |t|);
      assert WithoutMark(s[..k]) == t[..j];
      CutText(t, j);
    }
  }

  /** A client whose connection is cut has been given the first of the events sent, each of them whole. */
  lemma {:induction false} CutConnection(es: seq<Event>, k: nat)
    requires (forall e | e in es :: Plain(e)) && k <= |PrintAll(es)|
    ensures Parse(PrintAll(es)[..k]) <= es
  {
    RoundTrip(es);
    CutStream(PrintAll(es), k);
  }

  // ---------- and no other event survives ----------

  /** What no stream can dispatch: an empty type, a line break in a type or id, NUL in an id, CR in the data. */
  predicate Dispatchable(e: Event) {
    e.kind != "" && Unbroken(e.kind) && CR !in e.data && Unbroken(e.id) && NUL !in e.id
  }

  ghost predicate Clean(p: Parser) {
    Unbroken(p.kind) && CR !in p.data && Unbroken(p.id) && NUL !in p.id && forall e | e in p.events :: Dispatchable(e)
  }

  lemma {:induction false} FieldKeepsClean(p: Parser, name: string, value: string)
    requires Clean(p) && Unbroken(value)
    ensures Clean(ProcessField(p, name, value))
  {
    assert CR !in value;
  }

  lemma {:induction false} DispatchKeepsClean(p: Parser)
    requires Clean(p)
    ensures Clean(Dispatch(p))
  {
  }

  lemma {:induction false} LineKeepsClean(p: Parser, line: string)
    requires Clean(p) && Unbroken(line)
    ensures Clean(ProcessLine(p, line))
  {
    hide ProcessField, Dispatch, Clean;
    if line == "" {
      DispatchKeepsClean(p);
    } else {
      var k := FirstColon(line);
      FieldKeepsClean(p, line, "");
      if k < |line| {
        var value := line[k + 1..];
        FieldKeepsClean(p, line[..k], value);
        if value != "" {
          FieldKeepsClean(p, line[..k], value[1..]);
        }
      }
    }
  }

  lemma {:induction false} LinesKeepClean(p: Parser, ls: seq<string>)
    requires Clean(p) && forall l | l in ls :: Unbroken(l)
    ensures Clean(ProcessLines(p, ls))
    decreases |ls|
  {
    if ls != [] {
      LineKeepsClean(p, ls[0]);
      LinesKeepClean(ProcessLine(p, ls[0]), ls[1..]);
    }
  }

  lemma {:induction false} LinesAreUnbroken(s: string)
    ensures forall l | l in Lines(s) :: Unbroken(l)
    decreases |s|
  {
    var k := FirstBreak(s);
    if k < |s| {
      LinesAreUnbroken(s[NextLine(s, k)..]);
    }
  }

  function Total(ls: seq<string>): nat {
    if ls == [] then 0 else |ls[0]| + Total(ls[1..])
  }

  lemma {:induction false} TotalFits(s: string)
    ensures Total(Lines(s)) + |Lines(s)| <= |s|
    decreases |s|
  {
    var k := FirstBreak(s);
    if k < |s| {
      TotalFits(s[NextLine(s, k)..]);
    }
  }

  lemma {:induction false} FirstLineOfSum(a: string, b: string)
    requires a != "" && Last(a) == LF
    ensures var k := FirstBreak(a);
      k < |a| && FirstBreak(a + b) == k && (a + b)[..k] == a[..k] &&
      NextLine(a + b, k) == NextLine(a, k) && (a + b)[NextLine(a, k)..] == a[NextLine(a, k)..] + b &&
      (a[NextLine(a, k)..] != "" ==> Last(a[NextLine(a, k)..]) == LF)
  {
    FirstBreakIs(a + b, FirstBreak(a));
  }

  lemma {:induction false} ConsAppend<T>(x: T, s: seq<T>, t: seq<T>)
    ensures [x] + s + t == [x] + (s + t)
  {
  }

  lemma {:induction false} LinesAppend(a: string, b: string)
    requires a != "" ==> Last(a) == LF
    ensures Lines(a + b) == Lines(a) + Lines(b)
    decreases |a|
  {
    if a == "" {
      assert a + b == b;
    } else {
      var k := FirstBreak(a);
      FirstLineOfSum(a, b);
      FirstLine(a, k);
      FirstLine(a + b, k);
      hide Lines, FirstBreak, NextLine;
      LinesAppend(a[NextLine(a, k)..], b);
      ConsAppend(a[..k], Lines(a[NextLine(a, k)..]), Lines(b));
    }
  }

  ghost predicate Below(p: Parser, bound: nat) {
    (p.data != "" ==> Last(p.data) == LF) && forall e | e in p.events :: |e.data| < bound
  }

  /** A line adds no more to the data than it holds itself. */
  lemma {:induction false} LineAdds(p: Parser, line: string, bound: nat)
    requires Below(p, bound) && |p.data| + |line| <= bound
    ensures var p' := ProcessLine(p, line);
      Below(p', bound) && |p'.data| <= |p.data| + |line|
  {
  }

  lemma {:induction false} LinesAdd(p: Parser, ls: seq<string>, bound: nat)
    requires Below(p, bound) && |p.data| + Total(ls) <= bound
    ensures var p' := ProcessLines(p, ls);
      Below(p', bound) && |p'.data| <= bound
    decreases |ls|
  {
    if ls != [] {
      LineAdds(p, ls[0], bound);
      LinesAdd(ProcessLine(p, ls[0]), ls[1..], bound);
    }
  }

  /** Data that holds a line feed comes out shorter: the line after it is read as a field of its own. */
  lemma {:induction false} BrokenDataShrinks(e: Event)
    requires Unbroken(e.kind) && Unbroken(e.id) && CR !in e.data && LF in e.data
    ensures Below(ProcessLines(START, Lines(Print(e))), |e.data|)
  {
    var k := FirstBreak(e.data);
    var a, b, c := Field("event", e.kind), Field("data", e.data[..k]), Field("id", e.id);
    var tail := e.data[k + 1..] + "\n";
    BrokenLines(e, k);
    var ls := Lines(tail);
    TotalFits(tail);
    assert ls != [] by { assert IsBreak(Last(tail)); assert FirstBreak(tail) < |tail|; }
    hide ProcessLine, ProcessLines, Unbroken, Field, Lines, Total;
    var p := START.(kind := e.kind, data := "" + e.data[..k] + [LF]);
    TwoSteps(START, a, b);
    FieldLines(START, e.kind);
    FieldLines(START.(kind := e.kind), e.data[..k]);
    ProcessAppend(START, [a, b], ls + [c, ""]);
    LinesAdd(p, ls, |e.data|);
    ProcessAppend(p, ls, [c, ""]);
    Ending(ProcessLines(p, ls), e.id, |e.data|);
  }

  lemma {:induction false} BrokenLines(e: Event, k: nat)
    requires Unbroken(e.kind) && Unbroken(e.id) && CR !in e.data
    requires k < |e.data| && e.data[k] == LF && Unbroken(e.data[..k])
    ensures Lines(Print(e)) ==
      [Field("event", e.kind), Field("data", e.data[..k])] + (Lines(e.data[k + 1..] + "\n") + [Field("id", e.id), ""])
  {
    var a, b, c := Field("event", e.kind), Field("data", e.data[..k]), Field("id", e.id);
    FieldUnbroken("event", e.kind);
    FieldUnbroken("data", e.data[..k]);
    FieldUnbroken("id", e.id);
    assert Field("data", e.data) == b + "\n" + e.data[k + 1..];
    hide Field, Lines, Unbroken;
    ThreeParts(a, b, e.data[k + 1..], c);
  }

  lemma {:induction false} ThreeParts(a: string, b: string, after: string, c: string)
    requires Unbroken(a) && Unbroken(b) && Unbroken(c)
    ensures Lines(a + "\n" + (b + "\n" + after + "\n" + (c + "\n" + "\n"))) == [a, b] + (Lines(after + "\n") + [c, ""])
  {
    hide Lines, Unbroken;
    var end := c + "\n" + "\n";
    Reassociate(b, after + "\n", end);
    assert b + "\n" + after + "\n" == b + "\n" + (after + "\n");
    LineThen(a, b + "\n" + (after + "\n" + end));
    LineThen(b, after + "\n" + end);
    LinesAppend(after + "\n", end);
    LineThen(c, "\n");
    NothingAfter();
    assert [c] + [""] == [c, ""];
    ConsAppend(a, [b], Lines(after + "\n") + [c, ""]);
  }

  lemma {:induction false} NothingAfter()
    ensures Lines("\n") == [""]
  {
    BlankLine("");
    assert "\n" + "" == "\n";
  }

  lemma {:induction false} Ending(p: Parser, id: string, bound: nat)
    requires Below(p, bound) && |p.data| <= bound
    ensures Below(ProcessLines(p, [Field("id", id), ""]), bound)
  {
    FieldLines(p, id);
    hide ProcessLine, ProcessLines;
    TwoSteps(p, Field("id", id), "");
    LineAdds(ProcessLine(p, Field("id", id)), "", bound);
  }

  /** An event survives printing and parsing if and only if its type is not empty, none of its fields holds a line
      break, and its id holds no NUL. */
  lemma {:induction false} SurvivesIffPlain(e: Event)
    ensures Parse(Print(e)) == [e] <==> Plain(e)
  {
    assert PrintAll([e]) == Print(e) by { assert [e][1..] == []; }
    PrintedHasNoMark([e]);
    if Plain(e) {
      RoundTrip([e]);
    } else if Parse(Print(e)) == [e] {
      LinesAreUnbroken(Print(e));
      LinesKeepClean(START, Lines(Print(e)));
      assert e in Parse(Print(e));
      BrokenDataShrinks(e);
    }
  }

  // ---------- the server's side of a connection ----------

  /** The response of one client: what has been written, and how much more the connection will take. */
  class ResponseWriter {
    var written: string
    var room: nat

    constructor (room: nat)
      ensures written == "" && this.room == room
    {
      written, this.room := "", room;
    }

    /** A write that does not fit is cut short and reported. */
    method Write(text: string) returns (ok: bool)
      modifies this
      ensures ok == (|text| <= old(room))
      ensures written == old(written) + text[..Min(|text|, old(room))]
      ensures room == old(room) - Min(|text|, old(room))
    {
      var n := if |text| <= room then |text| else room;
      ok := n == |text|;
      written, room := written + text[..n], room - n;
    }

    /** sendSSEEvent: the data is the marshalled event, and nothing is written when marshalling fails. */
    method SendEvent(kind: string, id: string, marshalled: Option<string>) returns (ok: bool)
      modifies this
      ensures marshalled.None? ==> !ok && written == old(written)
      ensures marshalled.Some? ==>
        var text := Print(Event(kind, marshalled.value, id));
        ok == (|text| <= old(room)) && room == old(room) - Min(|text|, old(room)) &&
        written == old(written) + text[..Min(|text|, old(room))]
    {
      if marshalled.None? {
        return false;
      }
      var text := "event: " + kind + "\ndata: " + marshalled.value + "\nid: " + id + "\n\n";
      assert text == Print(Event(kind, marshalled.value, id));
      ok := Write(text);
    }

    /** handleSSE: the connection event goes out, and an error in that is ignored; then broadcasts and heartbeats follow
        in turn, until one cannot be sent or the request is cancelled, which is after `until` of them. Wherever this
        ends, the client has been given the first of the events, each of them whole. */
    method HandleEvents(first: Event, later: seq<Event>, until: nat) returns (sent: nat)
      requires written == "" && forall e | e in [first] + later :: Plain(e)
      modifies this
      ensures sent <= |later| && (sent == |later| || sent == until || room == 0)
      ensures Parse(written) <= [first] + later
      ensures |Print(first)| <= old(room) ==> [first] + later[..sent] <= Parse(written)
    {
      hide Parse, Print, Plain, Field;
      ghost var pending := [first] + later;
      var connected := SendEvent(first.kind, first.id, Some(first.data));
      FirstPrinted(first, later);
      sent := 0;
      while sent < |later| && sent < until
        invariant 0 <= sent <= |later| && (until <= sent ==> sent == until)
        invariant connected ==> written == PrintAll(pending[..sent + 1])
        invariant !connected ==> sent == 0 && room == 0 && written <= PrintAll(pending[..1])
        decreases |later| - sent
      {
        var e := later[sent];
        assert pending[sent + 1] == e;
        NotEmpty(e);
        var ok := SendEvent(e.kind, e.id, Some(e.data));
        PrintOneMore(pending, sent + 1);
        if !ok {
          if connected {
            CutShort(pending, sent + 1, written);
            assert pending[..sent + 1] == [first] + later[..sent];
          } else {
            CutShort(pending, 0, written);
          }
          return;
        }
        sent := sent + 1;
      }
      if connected {
        RoundTrip(pending[..sent + 1]);
        assert pending[..sent + 1] == [first] + later[..sent];
      } else {
        CutShort(pending, 0, written);
      }
    }
  }

  lemma {:induction false} NotEmpty(e: Event)
    ensures |Print(e)| > 0
  {
  }

  lemma {:induction false} FirstPrinted(first: Event, later: seq<Event>)
    ensures PrintAll(([first] + later)[..1]) == Print(first) && PrintAll(([first] + later)[..0]) == ""
  {
    hide Print;
    assert ([first] + later)[..1] == [first] && [first][1..] == [];
  }

  lemma {:induction false} PrintAllAppend(es: seq<Event>, fs: seq<Event>)
    ensures PrintAll(es + fs) == PrintAll(es) + PrintAll(fs)
  {
    hide Print;
    if es == [] {
      assert es + fs == fs;
    } else {
      PrintAllAppend(es[1..], fs);
      assert (es + fs)[1..] == es[1..] + fs;
      Associate(Print(es[0]), PrintAll(es[1..]), PrintAll(fs));
    }
  }

  lemma {:induction false} PrintOneMore(es: seq<Event>, k: nat)
    requires k < |es|
    ensures PrintAll(es[..k + 1]) == PrintAll(es[..k]) + Print(es[k])
  {
    hide Print;
    assert es[..k + 1] == es[..k] + [es[k]];
    PrintAllAppend(es[..k], [es[k]]);
    assert [es[k]][1..] == [];
  }

  lemma {:induction false} CutShort(es: seq<Event>, k: nat, written: string)
    requires (forall e | e in es :: Plain(e)) && k < |es|
    requires PrintAll(es[..k]) <= written <= PrintAll(es[..k + 1])
    ensures es[..k] <= Parse(written) <= es
  {
    hide PrintAll, Parse, Plain;
    RoundTrip(es[..k]);
    assert PrintAll(es[..k]) == written[..|PrintAll(es[..k])|];
    CutStream(written, |PrintAll(es[..k])|);
    assert written == PrintAll(es[..k + 1])[..|written|];
    CutConnection(es[..k + 1], |written|);
  }
}
