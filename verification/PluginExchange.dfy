/**
 The request/reply lock-step between the agent (src/plugins.rs) and a connector plugin built on the
 SDK (crates/collector-sdk/src/lib.rs): one shared process, one request line, one reply line.
 */
module PluginExchange {
  import opened Common

  // --------------------------------------------------------------- plugin side

  /** `query`, `test` and `history` are one operation of the collector; any other name is Unknown. */
  datatype Op = Read | Discover | Query | Write | Subscribe | Unknown

  datatype Request = Request(op: Op, body: string)

  datatype Reply =
    | Samples(value: string) | Tree(value: string) | Value(value: string) | Readback(value: string)
    | Ack | Error(message: string) | BadRequest

  /**
   A collector as the SDK sees it: the JSON parser, what each call returns given the calls before it,
   and the batches a subscription emits before it ends.
   */
  datatype Collector = Collector(
    parse: string -> Option<Request>,
    call: (seq<Request>, Request) -> Result<string, string>,
    emits: (seq<Request>, Request) -> seq<string>)

  predicate Blank(line: string) { forall c :: c in line ==> c in " \t\n\r" }

  /** The reply of `dispatch`; only Unknown does without the collector. */
  function Dispatch(c: Collector, heard: seq<Request>, req: Request): Reply {
    if req.op == Unknown then Ack else
      match c.call(heard, req)
      case Failure(e) => Error(e)
      case Success(v) =>
        match req.op
        case Read => Samples(v)
        case Discover => Tree(v)
        case Write => Readback(v)
        case Query => Value(v)
        case _ => Ack
  }

  /** The lines written for one input line, given the requests handled before it. */
  function Replies(c: Collector, heard: seq<Request>, line: string): seq<Reply> {
    if Blank(line) then []
    else match c.parse(line)
      case None => [BadRequest]
      case Some(req) =>
        if req.op == Subscribe then Batches(c.emits(heard, req)) + [Dispatch(c, heard, req)]
        else [Dispatch(c, heard, req)]
  }

  function Batches(values: seq<string>): seq<Reply> {
    if values == [] then [] else [Samples(values[0])] + Batches(values[1..])
  }

  /** The requests handled after reading `lines`. */
  function Heard(c: Collector, lines: seq<string>): seq<Request> {
    if lines == [] then [] else
      var before, line := Heard(c, lines[..|lines| - 1]), lines[|lines| - 1];
      if Blank(line) || c.parse(line).None? then before else before + [c.parse(line).value]
  }

  /** Everything written after reading `lines`. */
  function Out(c: Collector, lines: seq<string>): seq<Reply> {
    if lines == [] then [] else
      Out(c, lines[..|lines| - 1]) + Replies(c, Heard(c, lines[..|lines| - 1]), lines[|lines| - 1])
  }

  /** The SDK's `run` loop over the lines of its input. */
  method Run(c: Collector, lines: seq<string>) returns (out: seq<Reply>)
    ensures out == Out(c, lines)
  {
    out := [];
    var heard: seq<Request> := [];
    var i := 0;
    while i < |lines|
      invariant i <= |lines|
      invariant heard == Heard(c, lines[..i]) && out == Out(c, lines[..i])
    {
      var line := lines[i];
      i := i + 1;
      assert lines[..i][..i - 1] == lines[..i - 1];
      if Blank(line) {
        continue;
      }
      match c.parse(line) {
        case None =>
          out := out + [BadRequest];
        case Some(req) =>
          if req.op == Subscribe {
            out := out + (Batches(c.emits(heard, req)) + [Dispatch(c, heard, req)]);
          } else {
            out := out + [Dispatch(c, heard, req)];
          }
          heard := heard + [req];
      }
    }
    assert lines[..i] == lines;
  }

  /** The reply to a request that is no subscription, given what the collector's call returned. */
  ghost predicate IsReply(reply: Reply, op: Op, result: Result<string, string>) {
    match (op, result)
    case (Unknown, _) => reply == Ack
    case (_, Failure(message)) => reply == Error(message)
    case (Read, Success(value)) => reply == Samples(value)
    case (Discover, Success(value)) => reply == Tree(value)
    case (Query, Success(value)) => reply == Value(value)
    case (Write, Success(value)) => reply == Readback(value)
    case (Subscribe, Success(_)) => reply == Ack
  }

  /**
   The loop, line by line: blanks are passed over, bad requests refused, and any other request is handled
   after those before it and answered by its operation; only a subscription writes its batches first.
   */
  lemma OneLine(c: Collector, lines: seq<string>, line: string)
    ensures (forall ch :: ch in line ==> ch == ' ' || ch == '\t' || ch == '\n' || ch == '\r') ==>
              Out(c, lines + [line]) == Out(c, lines) && Heard(c, lines + [line]) == Heard(c, lines)
    ensures (exists ch :: ch in line && ch != ' ' && ch != '\t' && ch != '\n' && ch != '\r')
            && c.parse(line) == None ==>
              Out(c, lines + [line]) == Out(c, lines) + [BadRequest] && Heard(c, lines + [line]) == Heard(c, lines)
    ensures (exists ch :: ch in line && ch != ' ' && ch != '\t' && ch != '\n' && ch != '\r')
            && c.parse(line).Some? ==>
              var (before, heard, req) := (Out(c, lines), Heard(c, lines), c.parse(line).value);
              && Heard(c, lines + [line]) == heard + [req]
              && exists batches, reply ::
                && Out(c, lines + [line]) == before + batches + [reply]
                && IsReply(reply, req.op, c.call(heard, req))
                && |batches| == (if req.op == Subscribe then |c.emits(heard, req)| else 0)
                && forall i :: 0 <= i < |batches| ==> batches[i] == Samples(c.emits(heard, req)[i])
  {
    var all := lines + [line];
    assert all[..|all| - 1] == lines;
    if !Blank(line) && c.parse(line).Some? {
      var heard, req := Heard(c, lines), c.parse(line).value;
      var batches := if req.op == Subscribe then Batches(c.emits(heard, req)) else [];
      var reply := Dispatch(c, heard, req);
      BatchesAre(c.emits(heard, req));
      assert Out(c, all) == Out(c, lines) + (batches + [reply]) == Out(c, lines) + batches + [reply];
      assert IsReply(reply, req.op, c.call(heard, req));
    }
  }

  lemma {:induction false} BatchesAre(values: seq<string>)
    ensures |Batches(values)| == |values|
    ensures forall i :: 0 <= i < |values| ==> Batches(values)[i] == Samples(values[i])
  {
    if values != [] {
      BatchesAre(values[1..]);
    }
  }

  /** A line that is answered by exactly one line. */
  predicate Plain(c: Collector, line: string) {
    !Blank(line) && !(c.parse(line).Some? && c.parse(line).value.op == Subscribe)
  }

  predicate AllPlain(c: Collector, lines: seq<string>) { forall l :: l in lines ==> Plain(c, l) }

  /** The reply to the k-th line of `lines`. */
  function ReplyTo(c: Collector, lines: seq<string>, k: nat): Reply
    requires k < |lines| && Plain(c, lines[k])
  {
    Replies(c, Heard(c, lines[..k]), lines[k])[0]
  }

  lemma PlainReply(c: Collector, lines: seq<string>, k: nat)
    requires k < |lines| && Plain(c, lines[k])
    ensures Replies(c, Heard(c, lines[..k]), lines[k]) == [ReplyTo(c, lines, k)]
  {
  }

  /** On plain lines the loop stays in step: the k-th line written replies to the k-th line read. */
  lemma {:induction false} OneReplyEach(c: Collector, lines: seq<string>)
    requires AllPlain(c, lines)
    ensures |Out(c, lines)| == |lines|
    ensures forall k :: 0 <= k < |lines| ==> Out(c, lines)[k] == ReplyTo(c, lines, k)
  {
    if lines != [] {
      var n := |lines| - 1;
      var before := lines[..n];
      OneReplyEach(c, before);
      PlainReply(c, lines, n);
      assert Out(c, lines) == Out(c, before) + [ReplyTo(c, lines, n)];
      forall k | 0 <= k < n
        ensures ReplyTo(c, lines, k) == ReplyTo(c, before, k)
      {
        SameReply(c, lines, n, k);
      }
    }
  }

  /** A reply depends on the lines up to its own. */
  lemma SameReply(c: Collector, lines: seq<string>, n: nat, k: nat)
    requires k < n <= |lines| && Plain(c, lines[k])
    ensures ReplyTo(c, lines, k) == ReplyTo(c, lines[..n], k)
  {
    assert lines[..n][..k] == lines[..k];
  }

  // ----------------------------------------------------------------- host side

  /** A live process: the lines it was sent, an unfinished line, and how many reply lines were read. */
  datatype Proc = Proc(id: nat, lines: seq<string>, partial: string, read: nat)

  /** The `proc` slot, and how many processes were spawned so far. */
  datatype Host = Host(proc: Option<Proc>, spawned: nat)

  datatype Fault = WriteFails | ReadFails | Eof | Timeout

  /**
   How one exchange goes: the spawn fails, the pipe or the process fails, a reply line arrives, or the
   caller is aborted after `written` characters of the payload.
   */
  datatype Event = NoSpawn | Broken(fault: Fault) | Line | Cancelled(written: nat)

  datatype Outcome = Replied(reply: Reply) | NotSpawned | Gave(fault: Fault) | Dropped

  /** The behaviour of each process ever spawned. */
  type Program = nat -> Collector

  /** The process an exchange talks to: the retained one, or a new one. */
  function Current(h: Host): Proc { if h.proc.Some? then h.proc.value else Proc(h.spawned, [], "", 0) }

  function Sent(p: Proc, text: string): Proc { p.(lines := p.lines + [p.partial + text], partial := "") }

  /** What can happen: a reply is only read if it was written, a payload is `text` and a newline. */
  predicate Possible(prog: Program, h: Host, text: string, event: Event) {
    match event
    case NoSpawn => h.proc.None?
    case Broken(_) => true
    case Line => Current(h).read < |Out(prog(Current(h).id), Sent(Current(h), text).lines)|
    case Cancelled(written) => written <= |text| + 1
  }

  /** One call of `exchange`. */
  function Step(prog: Program, h: Host, text: string, event: Event): (Host, Outcome)
    requires Possible(prog, h, text, event)
  {
    var p := Current(h);
    var spawned := if h.proc.Some? then h.spawned else h.spawned + 1;
    match event
    case NoSpawn => (h, NotSpawned)
    case Broken(fault) => (Host(None, spawned), Gave(fault))
    case Line =>
      var q := Sent(p, text);
      (Host(Some(q.(read := p.read + 1)), spawned), Replied(Out(prog(p.id), q.lines)[p.read]))
    case Cancelled(written) =>
      var q := if written == |text| + 1 then Sent(p, text) else p.(partial := p.partial + text[..written]);
      (Host(Some(q), spawned), Dropped)
  }

  /** The reply line an exchange of `text` finds next. */
  function NextLine(prog: Program, h: Host, text: string): Reply
    requires Possible(prog, h, text, Line)
  {
    Out(prog(Current(h).id), Sent(Current(h), text).lines)[Current(h).read]
  }

  class Plugin {
    ghost const prog: Program
    var proc: Option<Proc>
    var spawned: nat

    constructor (ghost prog: Program)
      ensures this.prog == prog && State() == Host(None, 0)
    {
      this.prog := prog;
      proc, spawned := None, 0;
    }

    ghost function State(): Host
      reads this
    {
      Host(proc, spawned)
    }

    /**
     `exchange`: `event` is what the operating system, the process and an abort of the caller make of it,
     `line` the line read if one is.
     */
    method Exchange(text: string, event: Event, line: Reply) returns (io: Outcome)
      requires Possible(prog, State(), text, event)
      requires event.Line? ==> line == NextLine(prog, State(), text)
      modifies this
      ensures (State(), io) == Step(prog, old(State()), text, event)
      ensures event.NoSpawn? ==> io == NotSpawned && proc == None && spawned == old(spawned)
      ensures !event.NoSpawn? ==> spawned == old(spawned) + if old(proc) == None then 1 else 0
      ensures event.Broken? ==> io == Gave(event.fault) && proc == None
      ensures event.Line? || event.Cancelled? ==>
                var was := if old(proc) == None then Proc(old(spawned), [], "", 0) else old(proc).value;
                if event.Line? then
                  && io == Replied(line)
                  && proc == Some(Proc(was.id, was.lines + [was.partial + text], "", was.read + 1))
                else
                  && io == Dropped
                  && proc == Some(if event.written <= |text|
                                  then Proc(was.id, was.lines, was.partial + text[..event.written], was.read)
                                  else Proc(was.id, was.lines + [was.partial + text], "", was.read))
    {
      if proc.None? {
        if event.NoSpawn? {
          return NotSpawned;
        }
        proc := Some(Proc(spawned, [], "", 0));
        spawned := spawned + 1;
      }
      var p := proc.value;
      if event.Cancelled? && event.written <= |text| {
        // the caller is gone before the line is complete; the process stays in the slot
        proc := Some(p.(partial := p.partial + text[..event.written]));
        return Dropped;
      }
      p := p.(lines := p.lines + [p.partial + text], partial := "");
      proc := Some(p);
      if event.Cancelled? {
        return Dropped;
      }
      if event.Line? {
        proc := Some(p.(read := p.read + 1));
        io := Replied(line);
      } else {
        io := Gave(event.fault);
      }
      if !io.Replied? {
        // drop the broken process so that the next call spawns another
        proc := None;
      }
    }
  }

  // ------------------------------------------------------------------ theorems

  /** Replies the process owes: lines it writes for what it was sent, less those that were read. */
  function Owed(prog: Program, p: Proc): int { |Out(prog(p.id), p.lines)| - p.read }

  /** The slot is empty, or holds a process that owes nothing and is not in the middle of a line. */
  predicate InSync(prog: Program, h: Host) {
    h.proc.Some? ==> h.proc.value.partial == "" && Owed(prog, h.proc.value) == 0
  }

  /** Every line the retained process was sent is plain. */
  predicate Orderly(prog: Program, h: Host) {
    h.proc.Some? ==> AllPlain(prog(h.proc.value.id), h.proc.value.lines) && Owed(prog, h.proc.value) >= 0
  }

  /**
   A request of the agent: not blank, not `subscribe`. What follows a cut-off request on the same line
   makes it bad JSON, so that is no `subscribe` either.
   */
  predicate Proper(prog: Program, h: Host, text: string) {
    Plain(prog(Current(h).id), Current(h).partial + text)
  }

  /** The outcome is the process's own reply to `text`, as the last line it was sent. */
  predicate Answers(prog: Program, after: Host, text: string, outcome: Outcome) {
    && after.proc.Some? && outcome.Replied?
    && var p := after.proc.value;
       p.lines != [] && p.lines[|p.lines| - 1] == text && p.read == |p.lines|
       && Replies(prog(p.id), Heard(prog(p.id), p.lines[..|p.lines| - 1]), text) == [outcome.reply]
  }

  lemma SentOut(prog: Program, h: Host, text: string)
    requires Orderly(prog, h) && Proper(prog, h, text)
    ensures var (c, p) := (prog(Current(h).id), Current(h));
            var q := Sent(p, text);
            && AllPlain(c, q.lines)
            && |Out(c, p.lines)| == |p.lines| && |Out(c, q.lines)| == |p.lines| + 1
            && q.lines[..|p.lines|] == p.lines
  {
    var (c, p) := (prog(Current(h).id), Current(h));
    OneReplyEach(c, p.lines);
    OneReplyEach(c, Sent(p, text).lines);
  }

  /** Sending always leaves a reply to read, so an exchange that is not broken can end. */
  lemma AlwaysAnswerable(prog: Program, h: Host, text: string)
    requires Orderly(prog, h) && Proper(prog, h, text)
    ensures Possible(prog, h, text, Line)
  {
    SentOut(prog, h, text);
  }

  lemma StepOrderly(prog: Program, h: Host, text: string, event: Event)
    requires Orderly(prog, h) && Proper(prog, h, text) && Possible(prog, h, text, event)
    ensures Orderly(prog, Step(prog, h, text, event).0)
  {
    SentOut(prog, h, text);
  }

  /**
   From a process that owes nothing, an exchange that runs to its end returns the reply to the request
   it just sent, and leaves no debt behind: a failure of any kind drops the process with its debt.
   */
  lemma CompletedKeepsSync(prog: Program, h: Host, text: string, event: Event)
    requires Orderly(prog, h) && Proper(prog, h, text) && Possible(prog, h, text, event)
    requires InSync(prog, h) && !event.Cancelled?
    ensures var (after, outcome) := Step(prog, h, text, event);
            InSync(prog, after) && (event.Line? ==> Answers(prog, after, text, outcome))
  {
    SentOut(prog, h, text);
  }

  /**
   In any state the reply read answers the request sent just now exactly when nothing is owed and no
   line was left unfinished.
   */
  lemma AnswersIffInSync(prog: Program, h: Host, text: string)
    requires Orderly(prog, h) && Proper(prog, h, text) && Possible(prog, h, text, Line)
    ensures var (after, outcome) := Step(prog, h, text, Line);
            Answers(prog, after, text, outcome) <==> InSync(prog, h)
  {
    SentOut(prog, h, text);
    if InSync(prog, h) {
      CompletedKeepsSync(prog, h, text, Line);
    } else {
      var p := Current(h);
      assert p.partial != "" ==> |p.partial + text| > |text|;
      assert p.read != |p.lines| || p.partial != "";
    }
  }

  /** Otherwise it is the reply to the line sent as many lines earlier as replies are owed. */
  lemma RepliesLagBehind(prog: Program, h: Host, text: string)
    requires Orderly(prog, h) && Proper(prog, h, text) && Possible(prog, h, text, Line)
    ensures var p := Current(h);
            var (c, lines) := (prog(p.id), Sent(p, text).lines);
            && 0 <= Owed(prog, p) < |lines| && p.read == |lines| - 1 - Owed(prog, p)
            && Plain(c, lines[p.read])
            && Step(prog, h, text, Line).1 == Replied(ReplyTo(c, lines, p.read))
  {
    SentOut(prog, h, text);
    var p := Current(h);
    OneReplyEach(prog(p.id), Sent(p, text).lines);
  }

  // ---------------------------------------------------------------------- runs

  datatype Call = Call(text: string, event: Event)

  /** A run of the agent from its start: the calls are made one after the other, under the lock. */
  predicate Runs(prog: Program, calls: seq<Call>)
    decreases |calls|, 0
  {
    calls != [] ==>
      var n := |calls| - 1;
      && Runs(prog, calls[..n])
      && Proper(prog, Final(prog, calls[..n]), calls[n].text)
      && Possible(prog, Final(prog, calls[..n]), calls[n].text, calls[n].event)
  }

  function Final(prog: Program, calls: seq<Call>): Host
    requires Runs(prog, calls)
    decreases |calls|, 1
  {
    if calls == [] then Host(None, 0) else
      var n := |calls| - 1;
      Step(prog, Final(prog, calls[..n]), calls[n].text, calls[n].event).0
  }

  /** Calls cancelled after their whole line was written, since the last failure. */
  function Debt(calls: seq<Call>): nat {
    if calls == [] then 0 else
      var n := |calls| - 1;
      match calls[n].event
      case NoSpawn => 0
      case Broken(_) => 0
      case Line => Debt(calls[..n])
      case Cancelled(written) => Debt(calls[..n]) + if written == |calls[n].text| + 1 then 1 else 0
  }

  /** What calls cancelled in the middle of their line left on it. */
  function Cut(calls: seq<Call>): string {
    if calls == [] then "" else
      var n := |calls| - 1;
      match calls[n].event
      case Cancelled(written) => if written <= |calls[n].text| then Cut(calls[..n]) + calls[n].text[..written] else ""
      case _ => ""
  }

  /** What a run leaves owed, and on the line, is what its cancelled calls left there. */
  lemma {:induction false} DebtIsOwed(prog: Program, calls: seq<Call>)
    requires Runs(prog, calls)
    ensures var h := Final(prog, calls);
            && Orderly(prog, h)
            && Current(h).partial == Cut(calls) && Owed(prog, Current(h)) == Debt(calls)
  {
    if calls != [] {
      var n := |calls| - 1;
      var h := Final(prog, calls[..n]);
      DebtIsOwed(prog, calls[..n]);
      SentOut(prog, h, calls[n].text);
      StepOrderly(prog, h, calls[n].text, calls[n].event);
    }
  }

  lemma {:induction false} RunsPrefix(prog: Program, calls: seq<Call>, k: nat)
    requires Runs(prog, calls) && k <= |calls|
    ensures Runs(prog, calls[..k])
    ensures k < |calls| ==> Proper(prog, Final(prog, calls[..k]), calls[k].text)
    ensures k < |calls| ==> Possible(prog, Final(prog, calls[..k]), calls[k].text, calls[k].event)
    decreases |calls|
  {
    var n := |calls| - 1;
    if k == |calls| {
      assert calls[..k] == calls;
    } else if k < n {
      RunsPrefix(prog, calls[..n], k);
      assert calls[..n][..k] == calls[..k];
    }
  }

  /** The reply of the k-th call of a run answers that very call. */
  predicate AnsweredOwn(prog: Program, calls: seq<Call>, k: nat)
    requires Runs(prog, calls) && k < |calls| && calls[k].event.Line?
  {
    RunsPrefix(prog, calls, k);
    var (after, outcome) := Step(prog, Final(prog, calls[..k]), calls[k].text, Line);
    Answers(prog, after, calls[k].text, outcome)
  }

  /**
   Lock-step over whole runs: the reply a call returns answers that very call exactly when no call
   cancelled since the last failure left a reply unread or its line unfinished.
   */
  lemma LockStepExact(prog: Program, calls: seq<Call>, k: nat)
    requires Runs(prog, calls) && k < |calls| && calls[k].event.Line?
    ensures AnsweredOwn(prog, calls, k) <==> Debt(calls[..k]) == 0 && Cut(calls[..k]) == ""
  {
    RunsPrefix(prog, calls, k);
    DebtIsOwed(prog, calls[..k]);
    AnswersIffInSync(prog, Final(prog, calls[..k]), calls[k].text);
  }

  /** With no call cancelled once its first byte is written, every reply in every run answers its own call. */
  lemma LockStep(prog: Program, calls: seq<Call>, k: nat)
    requires Runs(prog, calls) && k < |calls| && calls[k].event.Line?
    requires forall i :: 0 <= i < k && calls[i].event.Cancelled? ==> calls[i].event.written == 0
    ensures AnsweredOwn(prog, calls, k)
  {
    NothingLeft(calls[..k]);
    LockStepExact(prog, calls, k);
  }

  lemma {:induction false} NothingLeft(calls: seq<Call>)
    requires forall i :: 0 <= i < |calls| && calls[i].event.Cancelled? ==> calls[i].event.written == 0
    ensures Debt(calls) == 0 && Cut(calls) == ""
  {
    if calls != [] {
      NothingLeft(calls[..|calls| - 1]);
    }
  }

  lemma CancelledFirst(prog: Program, a: string)
    requires Plain(prog(0), a)
    ensures var calls := [Call(a, Cancelled(|a| + 1))];
            Runs(prog, calls) && Final(prog, calls) == Host(Some(Proc(0, [a], "", 0)), 1)
  {
    var calls := [Call(a, Cancelled(|a| + 1))];
    assert calls[..0] == [] && Runs(prog, []) && Final(prog, []) == Host(None, 0);
    assert "" + a == a && [] + [a] == [a];
  }

  /** A call aborted while it awaits its reply: the next call is given the reply to the aborted one. */
  lemma CancelledCallDesyncs(prog: Program, a: string, b: string)
    requires Plain(prog(0), a) && Plain(prog(0), b)
    ensures var calls := [Call(a, Cancelled(|a| + 1)), Call(b, Line)];
            && Runs(prog, calls) && !AnsweredOwn(prog, calls, 1)
            && Step(prog, Final(prog, calls[..1]), b, Line).1 == Replied(ReplyTo(prog(0), [a, b], 0))
  {
    var first := [Call(a, Cancelled(|a| + 1))];
    var calls := first + [Call(b, Line)];
    assert calls == [Call(a, Cancelled(|a| + 1)), Call(b, Line)] && calls[..1] == first;
    CancelledFirst(prog, a);
    var h := Final(prog, first);
    assert "" + b == b && [a] + [b] == [a, b];
    DebtIsOwed(prog, first);
    AlwaysAnswerable(prog, h, b);
    RepliesLagBehind(prog, h, b);
    LockStepExact(prog, calls, 1);
  }
}
