/**
 The life of one connection of crates/plugin-s7/src/s7/client.rs: many calls, or many jobs, one after the
 other. The plugin makes the remaining calls of a batch after one that failed
 (crates/plugin-s7/src/main.rs:95-112), so what one call leaves on the stream is what the next one reads.
 */
module S7Sequence {
  import opened Common
  import opened S7Telegram
  import opened S7Link
  import opened S7Transfer
  import opened S7Calls

  // ---------------------------------------------------------- calls in sequence

  /** How one call goes on a connection. */
  type Caller = (Link, Call) -> JobEnd

  /** `call` is what a client on these terms does. */
  ghost predicate Calls(call: Caller, t: Advancing) {
    forall l: Link, c: Call {:trigger Made(l, t, c)} :: call(l, c) == Made(l, t, c)
  }

  lemma TheClient(t: Advancing) returns (call: Caller)
    ensures Calls(call, t)
  {
    call := (l: Link, c: Call) => Made(l, t, c);
  }

  /** The connection before call `k`. */
  function LinkAt(call: Caller, l: Link, calls: seq<Call>, k: nat): Link
    requires k <= |calls|
  {
    if k == 0 then l else call(LinkAt(call, l, calls, k - 1), calls[k - 1]).0
  }

  function ResultAt(call: Caller, l: Link, calls: seq<Call>, k: nat): Result<seq<byte>, S7Error>
    requires k < |calls|
  {
    call(LinkAt(call, l, calls, k), calls[k]).1
  }

  /** Calls 0 to `k` each start with nothing unread, so that no reply but its own is on its way. */
  ghost predicate InStepUpTo(call: Caller, l: Link, calls: seq<Call>, k: nat)
    requires k <= |calls|
  {
    forall i :: 0 <= i <= k ==> LinkAt(call, l, calls, i).unread == []
  }

  /** None of the first `k` calls has failed like that. */
  ghost predicate NoneFailed(call: Caller, l: Link, calls: seq<Call>, k: nat, error: S7Error)
    requires k <= |calls|
  {
    forall i :: 0 <= i < k ==> ResultAt(call, l, calls, i) != Failure(error)
  }

  /** A prompt call from nothing unread leaves something exactly if it is refused. */
  ghost predicate LeavesRefused(call: Caller) {
    forall before: Link, c: Call {:trigger call(before, c)} :: before.faults == [] && before.unread == [] ==>
      LeftRefused(call(before, c).0, call(before, c).1)
  }

  ghost predicate LeftRefused(end: Link, r: Result<seq<byte>, S7Error>) {
    end.faults == [] && if r == Failure(IsoInvalidTelegram) then Headless(end.unread) else end.unread == []
  }

  lemma CallsLeaveRefused(call: Caller, t: Advancing)
    requires Calls(call, t)
    ensures LeavesRefused(call)
  {
    forall before: Link, c: Call {:trigger call(before, c)} | before.faults == [] && before.unread == []
      ensures LeftRefused(call(before, c).0, call(before, c).1)
    {
      assert before == Link(before.mem, [], []);
      assert call(before, c) == Made(before, t, c);
      CallInStep(c, before.mem, t);
    }
  }

  lemma {:induction false} StaysPrompt(call: Caller, l: Link, calls: seq<Call>, k: nat)
    requires LeavesRefused(call) && k <= |calls| && l.faults == [] && InStepUpTo(call, l, calls, k)
    ensures LinkAt(call, l, calls, k).faults == []
  {
    if k > 0 {
      StaysPrompt(call, l, calls, k - 1);
      assert LinkAt(call, l, calls, k - 1).unread == [];
    }
  }

  lemma {:induction false} InStepWhileAccepted(call: Caller, l: Link, calls: seq<Call>, k: nat)
    requires LeavesRefused(call) && k <= |calls| && l.faults == [] && l.unread == []
    ensures InStepUpTo(call, l, calls, k) <==> NoneFailed(call, l, calls, k, IsoInvalidTelegram)
  {
    if k > 0 {
      InStepWhileAccepted(call, l, calls, k - 1);
      if InStepUpTo(call, l, calls, k - 1) {
        StaysPrompt(call, l, calls, k - 1);
        var before := LinkAt(call, l, calls, k - 1);
        assert before.unread == [];
        assert LeftRefused(LinkAt(call, l, calls, k), ResultAt(call, l, calls, k - 1));
      }
    }
  }

  /**
   On a prompt link the calls are in step up to `k` exactly if none before it was refused for its size: the
   caller can tell from the results alone.
   */
  lemma InStepExact(call: Caller, t: Advancing, l: Link, calls: seq<Call>, k: nat)
    requires Calls(call, t) && k <= |calls| && l.faults == [] && l.unread == []
    ensures InStepUpTo(call, l, calls, k) <==> NoneFailed(call, l, calls, k, IsoInvalidTelegram)
  {
    CallsLeaveRefused(call, t);
    InStepWhileAccepted(call, l, calls, k);
  }

  /** A call in step does what it says. */
  lemma CallAtInStep(call: Caller, t: Advancing, l: Link, calls: seq<Call>, k: nat)
    requires Calls(call, t) && k < |calls| && l.faults == [] && InStepUpTo(call, l, calls, k)
    ensures Means(calls[k], LinkAt(call, l, calls, k).mem, t, LinkAt(call, l, calls, k + 1),
                  ResultAt(call, l, calls, k))
  {
    CallsLeaveRefused(call, t);
    StaysPrompt(call, l, calls, k);
    var before := LinkAt(call, l, calls, k);
    assert before == Link(before.mem, [], []);
    assert call(before, calls[k]) == Made(before, t, calls[k]);
    CallInStep(calls[k], before.mem, t);
  }

  predicate OnlyReads(calls: seq<Call>) { forall i :: 0 <= i < |calls| ==> calls[i].ReadBytes? || calls[i].ReadBit? }

  lemma {:induction false} ReadsKeepMemory(call: Caller, t: Advancing, l: Link, calls: seq<Call>, k: nat)
    requires Calls(call, t) && k <= |calls| && l.faults == [] && InStepUpTo(call, l, calls, k) && OnlyReads(calls)
    ensures LinkAt(call, l, calls, k).mem == l.mem
  {
    if k > 0 {
      ReadsKeepMemory(call, t, l, calls, k - 1);
      CallAtInStep(call, t, l, calls, k - 1);
    }
  }

  /** In a batch of reads every result up to the first refusal, and that one, is the read of memory as it is. */
  lemma ReadsUpToRefusal(call: Caller, t: Advancing, l: Link, calls: seq<Call>, k: nat)
    requires Calls(call, t) && k < |calls| && l.faults == [] && l.unread == [] && OnlyReads(calls)
    requires NoneFailed(call, l, calls, k, IsoInvalidTelegram)
    ensures Means(calls[k], l.mem, t, LinkAt(call, l, calls, k + 1), ResultAt(call, l, calls, k))
  {
    InStepExact(call, t, l, calls, k);
    ReadsKeepMemory(call, t, l, calls, k);
    CallAtInStep(call, t, l, calls, k);
  }

  ghost predicate ReadAsMeant(c: Call, mem: Memory, t: Advancing, r: Result<seq<byte>, S7Error>) {
    exists end: Link :: Means(c, mem, t, end, r)
  }

  /** No result before `k` is a refusal. */
  predicate AcceptedBefore(results: seq<Result<seq<byte>, S7Error>>, k: nat)
    requires k <= |results|
  {
    forall i :: 0 <= i < k ==> results[i] != Failure(IsoInvalidTelegram)
  }

  lemma BatchOfReads(call: Caller, t: Advancing, l: Link, calls: seq<Call>, results: seq<Result<seq<byte>, S7Error>>)
    requires Calls(call, t) && l.faults == [] && l.unread == [] && OnlyReads(calls) && |results| == |calls|
    requires forall k :: 0 <= k < |calls| ==> results[k] == ResultAt(call, l, calls, k)
    ensures forall k :: 0 <= k < |calls| && AcceptedBefore(results, k) ==> ReadAsMeant(calls[k], l.mem, t, results[k])
  {
    forall k | 0 <= k < |calls| && AcceptedBefore(results, k)
      ensures ReadAsMeant(calls[k], l.mem, t, results[k])
    {
      ReadsUpToRefusal(call, t, l, calls, k);
    }
  }

  // ----------------------------------------------------------------- with faults

  /** Over faults a call from nothing unread that does not fail with an I/O error is as on a prompt link. */
  ghost predicate StopsOnFaults(call: Caller) {
    forall before: Link, c: Call {:trigger call(before, c)} :: Ungarbled(before.faults) && before.unread == [] ==>
      var (end, r) := call(before, c);
      var (prompt, p) := call(before.(faults := []), c);
      StopsOrPrompt(end, r, prompt, p)
  }

  lemma CallsStop(call: Caller, t: Advancing)
    requires Calls(call, t)
    ensures StopsOnFaults(call)
  {
    forall before: Link, c: Call {:trigger call(before, c)} | Ungarbled(before.faults) && before.unread == []
      ensures var (end, r) := call(before, c);
              var (prompt, p) := call(before.(faults := []), c);
              StopsOrPrompt(end, r, prompt, p)
    {
      assert before == Link(before.mem, [], before.faults) && before.(faults := []) == Link(before.mem, [], []);
      assert call(before, c) == Made(before, t, c);
      assert call(before.(faults := []), c) == Made(Link(before.mem, [], []), t, c);
      FaultsOnlyStop(c, before.mem, t, before.faults);
    }
  }

  lemma {:induction false} InStepWhileAnswered(call: Caller, l: Link, calls: seq<Call>, k: nat)
    requires StopsOnFaults(call) && k <= |calls| && Ungarbled(l.faults) && l.unread == []
    requires NoneFailed(call, l, calls, k, Io) && NoneFailed(call, l, calls, k, IsoInvalidTelegram)
    ensures InStepUpTo(call, l, calls, k) && Ungarbled(LinkAt(call, l, calls, k).faults)
  {
    if k > 0 {
      InStepWhileAnswered(call, l, calls, k - 1);
      assert LinkAt(call, l, calls, k - 1).unread == [];
      assert ResultAt(call, l, calls, k - 1) != Failure(Io);
      assert ResultAt(call, l, calls, k - 1) != Failure(IsoInvalidTelegram);
    }
  }

  /**
   Whatever is lost, late or cut off: as long as no call has failed with an I/O error or refused a reply, the
   next call is in step; it fails with an I/O error, or does what it says.
   */
  lemma InStepOverFaults(call: Caller, t: Advancing, l: Link, calls: seq<Call>, k: nat)
    requires Calls(call, t) && k < |calls| && Ungarbled(l.faults) && l.unread == []
    requires NoneFailed(call, l, calls, k, Io) && NoneFailed(call, l, calls, k, IsoInvalidTelegram)
    ensures InStepUpTo(call, l, calls, k)
    ensures ResultAt(call, l, calls, k) == Failure(Io)
            || exists prompt: Link :: LinkAt(call, l, calls, k + 1).mem == prompt.mem
                                 && Means(calls[k], LinkAt(call, l, calls, k).mem, t, prompt,
                                          ResultAt(call, l, calls, k))
  {
    CallsStop(call, t);
    InStepWhileAnswered(call, l, calls, k);
    var before := LinkAt(call, l, calls, k);
    assert before.unread == [];
    FaultyCall(call, t, before, calls[k]);
  }

  lemma FaultyCall(call: Caller, t: Advancing, before: Link, c: Call)
    requires Calls(call, t) && StopsOnFaults(call) && Ungarbled(before.faults) && before.unread == []
    ensures call(before, c).1 == Failure(Io)
            || exists prompt: Link ::
                 call(before, c).0.mem == prompt.mem && Means(c, before.mem, t, prompt, call(before, c).1)
  {
    var (end, r) := call(before, c);
    var (prompt, p) := call(before.(faults := []), c);
    assert before.(faults := []) == Link(before.mem, [], []);
    assert call(before.(faults := []), c) == Made(Link(before.mem, [], []), t, c);
    CallInStep(c, before.mem, t);
    if r != Failure(Io) {
      assert Means(c, before.mem, t, prompt, r);
    }
  }

  // ------------------------------------------------------- after a refused reply

  /** A call that gets as far as sending something. */
  predicate Sends(c: Call) { Valid(c) && (c.ReadBytes? ==> c.n > 0) && (c.WriteBytes? ==> c.data != []) }

  /** The rest of a refused reply is taken for the next header. */
  lemma HeadlessExchange(l: Link, t: Terms, request: seq<byte>, minSize: nat)
    requires l.faults == [] && Headless(l.unread) && minSize > RW_RES_OFFSET
    ensures Transacted(l, t, request, minSize).1 == Failure(IsoInvalidHeader)
  {
  }

  ghost predicate HeadlessFails(reader: ReadJob, writer: WriteJob, l: Link) {
    && (forall item: Item :: reader(l, item).1 == Failure(IsoInvalidHeader))
    && (forall item: Item, payload: seq<byte> :: writer(l, item, payload).1 == Failure(IsoInvalidHeader))
  }

  lemma HeadlessCall(reader: ReadJob, writer: WriteJob, l: Link, t: Advancing, c: Call)
    requires HeadlessFails(reader, writer, l) && Sends(c)
    ensures MadeBy(reader, writer, l, t, c).1 == Failure(IsoInvalidHeader)
  {
  }

  lemma AfterHeadless(l: Link, t: Advancing, c: Call)
    requires Sends(c) && l.faults == [] && Headless(l.unread)
    ensures Made(l, t, c).1 == Failure(IsoInvalidHeader)
  {
    forall item: Item
      ensures Reader(t)(l, item).1 == Failure(IsoInvalidHeader)
    {
      HeadlessExchange(l, t, ReadRequest(item), READ_RES_LEN);
    }
    forall item: Item, payload: seq<byte>
      ensures Writer(t)(l, item, payload).1 == Failure(IsoInvalidHeader)
    {
      HeadlessExchange(l, t, WriteRequest(item, payload), WRITE_RES_LEN);
    }
    HeadlessCall(Reader(t), Writer(t), l, t, c);
  }

  /** After the first refused call on a prompt link, the next one fails whatever it asks for. */
  lemma AfterRefused(call: Caller, t: Advancing, l: Link, calls: seq<Call>, k: nat)
    requires Calls(call, t) && k + 1 < |calls| && l.faults == [] && InStepUpTo(call, l, calls, k)
    requires ResultAt(call, l, calls, k) == Failure(IsoInvalidTelegram) && Sends(calls[k + 1])
    ensures ResultAt(call, l, calls, k + 1) == Failure(IsoInvalidHeader)
  {
    CallsLeaveRefused(call, t);
    StaysPrompt(call, l, calls, k);
    var before, next := LinkAt(call, l, calls, k), LinkAt(call, l, calls, k + 1);
    assert LeftRefused(call(before, calls[k]).0, call(before, calls[k]).1);
    AfterHeadless(next, t, calls[k + 1]);
    assert call(next, calls[k + 1]) == Made(next, t, calls[k + 1]);
  }

  // ----------------------------------------------------------- jobs in sequence

  /** One exchange: a request, and which kind of reply is expected. */
  datatype Asked = Asked(request: seq<byte>, write: bool)

  function MinFor(write: bool): nat { if write then WRITE_RES_LEN else READ_RES_LEN }

  function MinOf(a: Asked): nat { MinFor(a.write) }

  type Exchanger = (Link, Asked) -> JobEnd

  function Exchanging(t: Terms): Exchanger { (l: Link, a: Asked) => Transacted(l, t, a.request, MinOf(a)) }

  ghost predicate Exchanges(x: Exchanger, t: Terms) {
    forall l: Link, a: Asked {:trigger Transacted(l, t, a.request, MinOf(a))} ::
      x(l, a) == Transacted(l, t, a.request, MinOf(a))
  }

  /** The connection before exchange `k`. */
  function Before(x: Exchanger, l: Link, asked: seq<Asked>, k: nat): Link
    requires k <= |asked|
  {
    if k == 0 then l else x(Before(x, l, asked, k - 1), asked[k - 1]).0
  }

  function FaultAt(faults: seq<Fault>, k: nat): Fault { if k < |faults| then faults[k] else Prompt }

  function From(faults: seq<Fault>, k: nat): seq<Fault> { if k <= |faults| then faults[k..] else [] }

  /** What the PLC sends for request `k`. */
  function SentAt(x: Exchanger, t: Terms, l: Link, asked: seq<Asked>, k: nat): Option<seq<byte>>
    requires k < |asked|
  {
    ReplyTo(Before(x, l, asked, k).mem, t.longest, asked[k].request)
  }

  /** What one exchange from nothing unread leaves. */
  lemma SettlesOrLeaves(x: Exchanger, t: Terms, before: Link, a: Asked)
    requires Exchanges(x, t) && before.unread == [] && !NextFault(before.faults).Garbled?
    requires Expects(t, a.request, MinOf(a))
    ensures x(before, a).0.faults == LaterFaults(before.faults)
    ensures x(before, a).0.unread == []
       <==> Settles(t.pdu, ReplyTo(before.mem, t.longest, a.request), NextFault(before.faults))
  {
    assert before == Link(before.mem, [], before.faults);
    ExchangeOverFault(before.mem, t, a.request, MinOf(a), before.faults);
    SettlesExact(t.pdu, ReplyTo(before.mem, t.longest, a.request), NextFault(before.faults));
    assert x(before, a) == Transacted(before, t, a.request, MinOf(a));
  }

  /** The first `k` exchanges each settle: none of their replies is late, or refused. */
  ghost predicate AllSettle(x: Exchanger, t: Terms, l: Link, asked: seq<Asked>, k: nat)
    requires k <= |asked|
  {
    forall i :: 0 <= i < k ==> Settles(t.pdu, SentAt(x, t, l, asked, i), FaultAt(l.faults, i))
  }

  ghost predicate NothingUnread(x: Exchanger, l: Link, asked: seq<Asked>, k: nat)
    requires k <= |asked|
  {
    forall i :: 0 <= i <= k ==> Before(x, l, asked, i).unread == []
  }

  lemma {:induction false} SettledBefore(x: Exchanger, t: Terms, l: Link, asked: seq<Asked>, k: nat)
    requires Exchanges(x, t) && k <= |asked| && l.unread == [] && Ungarbled(l.faults)
    requires forall i :: 0 <= i < |asked| ==> Expects(t, asked[i].request, MinOf(asked[i]))
    ensures NothingUnread(x, l, asked, k) <==> AllSettle(x, t, l, asked, k)
    ensures NothingUnread(x, l, asked, k) ==> Before(x, l, asked, k).faults == From(l.faults, k)
  {
    if k > 0 {
      SettledBefore(x, t, l, asked, k - 1);
      if NothingUnread(x, l, asked, k - 1) {
        var before := Before(x, l, asked, k - 1);
        assert before.unread == [];
        assert NextFault(before.faults) == FaultAt(l.faults, k - 1);
        assert LaterFaults(before.faults) == From(l.faults, k);
        SettlesOrLeaves(x, t, before, asked[k - 1]);
        assert Before(x, l, asked, k) == x(before, asked[k - 1]).0;
        assert SentAt(x, t, l, asked, k - 1) == ReplyTo(before.mem, t.longest, asked[k - 1].request);
      }
    }
  }

  /**
   Over every run of jobs and whatever is lost, late or cut off: every job up to `k` finds nothing unread, and
   so reads no reply but its own, exactly if every job before left nothing, that is its reply was in time and
   accepted for its size, or never came.
   */
  lemma SettledExact(t: Terms, l: Link, asked: seq<Asked>, k: nat)
    requires k <= |asked| && l.unread == [] && Ungarbled(l.faults)
    requires forall i :: 0 <= i < |asked| ==> Expects(t, asked[i].request, MinOf(asked[i]))
    ensures NothingUnread(Exchanging(t), l, asked, k) <==> AllSettle(Exchanging(t), t, l, asked, k)
  {
    SettledBefore(Exchanging(t), t, l, asked, k);
  }

  /**
   On any link an exchange takes the stream from its oldest byte on, and takes some exactly if any is there in
   time.
   */
  lemma OldestBytesFirst(x: Exchanger, t: Terms, before: Link, a: Asked)
    requires Exchanges(x, t) && !NextFault(before.faults).SendFails?
    ensures var fault := NextFault(before.faults);
            var stream := Arriving(before.unread + Answer(before.mem, t.longest, a.request, fault).1, fault);
            var left := x(before, a).0.unread;
            && |left| <= |stream| && left == stream[|stream| - |left|..]
            && (|left| < |stream| <==> InTime(stream, fault) > 0)
  {
    assert x(before, a) == Transacted(before, t, a.request, MinOf(a));
  }

  // --------------------------------------------------------------- late replies

  /** The replies `from` to `end` - 1, one after the other. */
  function OnWire(sent: seq<seq<byte>>, from: nat, end: nat): seq<byte>
    requires end <= |sent|
    decreases end
  {
    if from >= end then [] else OnWire(sent, from, end - 1) + Framed(sent[end - 1])
  }

  lemma {:induction false} OldestFirst(sent: seq<seq<byte>>, from: nat, end: nat)
    requires from < end <= |sent|
    ensures OnWire(sent, from, end) == Framed(sent[from]) + OnWire(sent, from + 1, end)
    decreases end
  {
    var head, last := Framed(sent[from]), Framed(sent[end - 1]);
    assert OnWire(sent, from, end) == OnWire(sent, from, end - 1) + last;
    if from + 1 < end {
      OldestFirst(sent, from, end - 1);
      assert OnWire(sent, from + 1, end) == OnWire(sent, from + 1, end - 1) + last;
      AppendAssociates(head, OnWire(sent, from + 1, end - 1), last);
    } else {
      assert [] + last == last == head == head + [];
    }
  }

  predicate Accepted(pdu: u16, s7: seq<byte>, minSize: nat) {
    minSize <= |s7| < minSize + 0x1_0000 && !Refused(pdu, |s7|)
  }

  lemma DeliversTheOldest(unread: seq<byte>, sent: seq<byte>, pdu: u16, minSize: nat, fault: Fault, head: seq<byte>,
                          rest: seq<byte>)
    requires RW_RES_OFFSET < minSize <= READ_RES_LEN && fault in {Prompt, Late(0)}
    requires unread + sent == Framed(head) + rest && Accepted(pdu, head, minSize)
    ensures Delivered(unread, sent, pdu, minSize, fault)
         == if fault == Prompt then Received(Judged(head), rest) else Received(Failure(Io), unread + sent)
  {
    var stream := Framed(head) + rest;
    if fault == Prompt {
      assert stream[..|Framed(head)|] == Framed(head) && stream[|Framed(head)|..] == rest;
      ReceiveReply(pdu, head, minSize, stream, |stream|);
    }
  }

  /**
   With a whole reply at the head of the stream an exchange takes that one, whatever was asked; if everything
   is late it takes nothing.
   */
  lemma TakesTheOldest(x: Exchanger, t: Terms, before: Link, a: Asked, sent: seq<byte>, head: seq<byte>,
                       rest: seq<byte>)
    requires Exchanges(x, t) && NextFault(before.faults) in {Prompt, Late(0)}
    requires sent == Answer(before.mem, t.longest, a.request, NextFault(before.faults)).1
    requires before.unread + sent == Framed(head) + rest && Accepted(t.pdu, head, MinOf(a))
    ensures x(before, a).0.faults == LaterFaults(before.faults)
    ensures if NextFault(before.faults) == Prompt
            then x(before, a).1 == Judged(head) && x(before, a).0.unread == rest
            else x(before, a).1 == Failure(Io) && x(before, a).0.unread == before.unread + sent
  {
    DeliversTheOldest(before.unread, sent, t.pdu, MinOf(a), NextFault(before.faults), head, rest);
    assert x(before, a) == Transacted(before, t, a.request, MinOf(a));
  }

  /** How many of the first `k` exchanges did not time out. */
  function InTimeBefore(faults: seq<Fault>, k: nat): (n: nat)
    ensures n <= k
  {
    if k == 0 then 0 else InTimeBefore(faults, k - 1) + if FaultAt(faults, k - 1) == Prompt then 1 else 0
  }

  /** Jobs of one kind whose replies, `sent`, are all accepted, each of them in time or late altogether. */
  ghost predicate Polls(x: Exchanger, t: Terms, l: Link, asked: seq<Asked>, sent: seq<seq<byte>>, write: bool) {
    && l.unread == [] && |sent| == |asked|
    && (forall i :: 0 <= i < |l.faults| ==> l.faults[i] in {Prompt, Late(0)})
    && (forall i :: 0 <= i < |asked| ==> asked[i].write == write)
    && (forall i {:trigger SentAt(x, t, l, asked, i)} :: 0 <= i < |asked| ==>
          SentAt(x, t, l, asked, i) == Some(sent[i]))
    && (forall i {:trigger Accepted(t.pdu, sent[i], MinFor(write))} :: 0 <= i < |asked| ==>
          Accepted(t.pdu, sent[i], MinFor(write)))
  }

  /** What poll `k` needs of the whole run. */
  ghost predicate Poll(t: Terms, before: Link, a: Asked, sent: seq<seq<byte>>, faults: seq<Fault>, k: nat) {
    && k < |sent| && ReplyTo(before.mem, t.longest, a.request) == Some(sent[k])
    && Accepted(t.pdu, sent[InTimeBefore(faults, k)], MinOf(a)) && FaultAt(faults, k) in {Prompt, Late(0)}
  }

  lemma PollAt(x: Exchanger, t: Terms, l: Link, asked: seq<Asked>, sent: seq<seq<byte>>, write: bool, k: nat)
    requires Polls(x, t, l, asked, sent, write) && k < |asked|
    ensures Poll(t, Before(x, l, asked, k), asked[k], sent, l.faults, k)
  {
    assert SentAt(x, t, l, asked, k) == Some(sent[k]);
    assert Accepted(t.pdu, sent[InTimeBefore(l.faults, k)], MinFor(write));
  }

  /** With the replies from the `oldest` on still to be read, an exchange takes that one, or only adds its own. */
  lemma LagStep(x: Exchanger, t: Terms, before: Link, a: Asked, sent: seq<seq<byte>>, k: nat, oldest: nat)
    requires Exchanges(x, t) && oldest <= k < |sent|
    requires ReplyTo(before.mem, t.longest, a.request) == Some(sent[k]) && Accepted(t.pdu, sent[oldest], MinOf(a))
    requires NextFault(before.faults) in {Prompt, Late(0)} && before.unread == OnWire(sent, oldest, k)
    ensures x(before, a).0.faults == LaterFaults(before.faults)
    ensures if NextFault(before.faults) == Prompt
            then x(before, a).1 == Judged(sent[oldest]) && x(before, a).0.unread == OnWire(sent, oldest + 1, k + 1)
            else x(before, a).0.unread == OnWire(sent, oldest, k + 1)
  {
    AnswerOverFault(before.mem, t.longest, a.request, NextFault(before.faults));
    OldestFirst(sent, oldest, k + 1);
    TakesTheOldest(x, t, before, a, Framed(sent[k]), sent[oldest], OnWire(sent, oldest + 1, k + 1));
  }

  lemma LagTurn(x: Exchanger, t: Terms, before: Link, a: Asked, sent: seq<seq<byte>>, faults: seq<Fault>, k: nat)
    requires Exchanges(x, t) && Poll(t, before, a, sent, faults, k)
    requires before.faults == From(faults, k) && before.unread == OnWire(sent, InTimeBefore(faults, k), k)
    ensures x(before, a).0.faults == From(faults, k + 1)
    ensures x(before, a).0.unread == OnWire(sent, InTimeBefore(faults, k + 1), k + 1)
    ensures FaultAt(faults, k) == Prompt ==> x(before, a).1 == Judged(sent[InTimeBefore(faults, k)])
  {
    assert NextFault(before.faults) == FaultAt(faults, k) && LaterFaults(before.faults) == From(faults, k + 1);
    var oldest := InTimeBefore(faults, k);
    assert InTimeBefore(faults, k + 1) == oldest + if FaultAt(faults, k) == Prompt then 1 else 0;
    LagStep(x, t, before, a, sent, k, oldest);
  }

  /** Before exchange `k` the replies that came late are on the stream, and no others. */
  lemma {:induction false} LateOnesWait(x: Exchanger, t: Terms, l: Link, asked: seq<Asked>, sent: seq<seq<byte>>,
                                        write: bool, k: nat)
    requires Exchanges(x, t) && Polls(x, t, l, asked, sent, write) && k <= |asked|
    ensures Before(x, l, asked, k).faults == From(l.faults, k)
    ensures Before(x, l, asked, k).unread == OnWire(sent, InTimeBefore(l.faults, k), k)
  {
    if k > 0 {
      LateOnesWait(x, t, l, asked, sent, write, k - 1);
      PollAt(x, t, l, asked, sent, write, k - 1);
      LagTurn(x, t, Before(x, l, asked, k - 1), asked[k - 1], sent, l.faults, k - 1);
    }
  }

  /**
   In a run of polls a job that does not time out gets the reply of the job as many earlier as replies came
   late; so it gets its own exactly if none has come late since the connection was made.
   */
  lemma RepliesLagBehind(t: Terms, l: Link, asked: seq<Asked>, sent: seq<seq<byte>>, write: bool, k: nat)
    requires Polls(Exchanging(t), t, l, asked, sent, write) && k < |asked| && FaultAt(l.faults, k) == Prompt
    ensures var oldest := sent[InTimeBefore(l.faults, k)];
            && Accepted(t.pdu, oldest, MinFor(write))
            && Exchanging(t)(Before(Exchanging(t), l, asked, k), asked[k]).1 == Judged(oldest)
    ensures InTimeBefore(l.faults, k) == k <==> forall i :: 0 <= i < k ==> FaultAt(l.faults, i) == Prompt
  {
    LagsFromFirstTimeout(l.faults, k);
    LagAt(Exchanging(t), t, l, asked, sent, write, k);
  }

  lemma LagAt(x: Exchanger, t: Terms, l: Link, asked: seq<Asked>, sent: seq<seq<byte>>, write: bool, k: nat)
    requires Exchanges(x, t) && Polls(x, t, l, asked, sent, write) && k < |asked| && FaultAt(l.faults, k) == Prompt
    ensures var oldest := sent[InTimeBefore(l.faults, k)];
            Accepted(t.pdu, oldest, MinFor(write)) && x(Before(x, l, asked, k), asked[k]).1 == Judged(oldest)
  {
    LateOnesWait(x, t, l, asked, sent, write, k);
    PollAt(x, t, l, asked, sent, write, k);
    LagTurn(x, t, Before(x, l, asked, k), asked[k], sent, l.faults, k);
  }

  lemma {:induction false} LagsFromFirstTimeout(faults: seq<Fault>, k: nat)
    ensures InTimeBefore(faults, k) == k <==> forall i :: 0 <= i < k ==> FaultAt(faults, i) == Prompt
  {
    if k > 0 {
      LagsFromFirstTimeout(faults, k - 1);
    }
  }

  // ------------------------------------------------------------- calls that fail

  /** What a read comes to, in step: the bytes, or the refusal of the first reply. */
  lemma ReadMeans(t: Advancing, mem: Memory, c: Call, end: Link, r: Result<seq<byte>, S7Error>)
    requires c.ReadBytes? && Valid(c) && c.n > 0 && Means(c, mem, t, end, r) && t.longest >= READ_REQ_LEN
    requires FlatRead(mem, KeyOf(c.area, c.db), c.start, c.n).Success?
    ensures r == if ReadWorks(t.pdu, t.longest, c.n) then FlatRead(mem, KeyOf(c.area, c.db), c.start, c.n)
                 else Failure(IsoInvalidTelegram)
  {
    ReadExact(t.pdu, t.longest, mem, KeyOf(c.area, c.db), c.start, c.n);
  }

  lemma ReadAlone(call: Caller, t: Advancing, mem: Memory, c: Call)
    requires Calls(call, t) && c.ReadBytes? && Valid(c) && c.n > 0 && t.longest >= READ_REQ_LEN
    requires FlatRead(mem, KeyOf(c.area, c.db), c.start, c.n).Success?
    ensures call(Link(mem, [], []), c).1
         == if ReadWorks(t.pdu, t.longest, c.n) then FlatRead(mem, KeyOf(c.area, c.db), c.start, c.n)
            else Failure(IsoInvalidTelegram)
  {
    CallInStep(c, mem, t);
    var (end, r) := call(Link(mem, [], []), c);
    assert (end, r) == Made(Link(mem, [], []), t, c);
    ReadMeans(t, mem, c, end, r);
  }

  /** A read that does not work for its size is refused, and the next call fails whatever it asks for. */
  lemma RefusedReadSpoils(call: Caller, t: Advancing, mem: Memory, calls: seq<Call>)
    requires Calls(call, t) && |calls| == 2 && Sends(calls[1])
    requires calls[0].ReadBytes? && Valid(calls[0]) && calls[0].n > 0
    requires FlatRead(mem, KeyOf(calls[0].area, calls[0].db), calls[0].start, calls[0].n).Success?
    requires t.longest >= READ_REQ_LEN && !ReadWorks(t.pdu, t.longest, calls[0].n)
    ensures ResultAt(call, Link(mem, [], []), calls, 0) == Failure(IsoInvalidTelegram)
    ensures ResultAt(call, Link(mem, [], []), calls, 1) == Failure(IsoInvalidHeader)
  {
    var l := Link(mem, [], []);
    ReadAlone(call, t, mem, calls[0]);
    AfterRefused(call, t, l, calls, 0);
  }

  /** A read of 1000 bytes at PDU 960 is refused, and the next read of 4 bytes fails though it would work alone. */
  lemma RefusedReadSpoilsNext(call: Caller, t: Advancing, mem: Memory, calls: seq<Call>)
    requires Calls(call, t) && t == Terms(960, 967) && Key(AREA_DB, 1) in mem && |mem[Key(AREA_DB, 1)]| == 1000
    requires calls == [ReadBytes(AREA_DB, 1, 0, 1000), ReadBytes(AREA_DB, 1, 0, 4)]
    ensures ResultAt(call, Link(mem, [], []), calls, 0) == Failure(IsoInvalidTelegram)
    ensures ResultAt(call, Link(mem, [], []), calls, 1) == Failure(IsoInvalidHeader)
    ensures call(Link(mem, [], []), calls[1]).1 == Success(mem[Key(AREA_DB, 1)][0..4])
  {
    RefusedReadSpoils(call, t, mem, calls);
    ReadAlone(call, t, mem, calls[1]);
  }

  /** A read of one chunk is one job. */
  lemma OneChunk(reader: ReadJob, writer: WriteJob, l: Link, t: Advancing, c: Call)
    requires c.ReadBytes? && Valid(c) && 0 < c.n <= RdChunk(t)
    ensures var (end, r) := reader(l, ByteItem(c.area, c.db, c.start, c.n));
            MadeBy(reader, writer, l, t, c) == (end, Returned(Plain(r), Filled(r, c.n, Zeros(c.n), 0)))
  {
    var (end, r) := reader(l, ByteItem(c.area, c.db, c.start, c.n));
    ReadLoopTurn(reader, l, RdChunk(t), c.area, c.db, c.start, c.n, Zeros(c.n), 0, 0, end, Plain(r),
                 Filled(r, c.n, Zeros(c.n), 0));
  }

  lemma OneWriteChunk(reader: ReadJob, writer: WriteJob, l: Link, t: Advancing, c: Call)
    requires c.WriteBytes? && Valid(c) && 0 < |c.data| <= 0xFFFF && |c.data| <= WrChunk(t)
    ensures var (end, r) := writer(l, ByteItem(c.area, c.db, c.start, |c.data|), c.data);
            MadeBy(reader, writer, l, t, c) == (end, Returned(Plain(r), []))
  {
    var (end, r) := writer(l, ByteItem(c.area, c.db, c.start, |c.data|), c.data);
    assert Clipped(c.data) == c.data == c.data[0..0 + |c.data|];
    WriteLoopTurn(writer, l, WrChunk(t), c.area, c.db, c.start, c.data, 0, 0, end, Plain(r));
  }

  /** `s7` is the reply to a read, with these bytes. */
  ghost predicate Carries(s7: seq<byte>, data: seq<byte>, pdu: u16) {
    && |s7| == READ_RES_LEN + |data| && s7[RW_RES_OFFSET] == RES_SUCCESS && s7[READ_RES_LEN..] == data
    && !Refused(pdu, |s7|)
  }

  /** The reply to a read of bytes that are there. */
  lemma ReplyCarries(pdu: u16, mem: Memory, area: byte, db: u16, start: u16, n: u16)
    requires 0 < n && FlatRead(mem, KeyOf(area, db), start, n).Success? && !Refused(pdu, READ_RES_LEN + n)
    ensures Carries(ReplyToRead(mem, ByteItem(area, db, start, n)), FlatRead(mem, KeyOf(area, db), start, n).value, pdu)
  {
    ReadOutcome(mem, area, db, start, n);
  }

  lemma LateJob(t: Terms, mem: Memory, item: Item, request: seq<byte>, later: seq<Fault>)
    requires t.longest >= READ_REQ_LEN == |request| && Parse(request) == Some(Read(item))
    ensures Transacted(Link(mem, [], [Late(0)] + later), t, request, READ_RES_LEN)
         == (Link(mem, Framed(ReplyToRead(mem, item)), later), Failure(Io))
  {
    var faults := [Late(0)] + later;
    assert NextFault(faults) == Late(0) && LaterFaults(faults) == later;
    ExchangeOverFault(mem, t, request, READ_RES_LEN, faults);
  }

  lemma LateReader(t: Advancing, mem: Memory, item: Item, later: seq<Fault>)
    requires item.address < 0x100_0000 && t.longest >= READ_REQ_LEN
    ensures Reader(t)(Link(mem, [], [Late(0)] + later), item)
         == (Link(mem, Framed(ReplyToRead(mem, item)), later), Failure(Io))
  {
    ReadRoundTrip(item);
    LateJob(t, mem, item, ReadRequest(item), later);
  }

  /** A read whose reply is late altogether times out, and leaves that reply on the stream. */
  lemma LateRead(t: Advancing, mem: Memory, c: Call, later: seq<Fault>)
    requires c.ReadBytes? && Valid(c) && 0 < c.n <= RdChunk(t) && t.longest >= READ_REQ_LEN
    ensures Made(Link(mem, [], [Late(0)] + later), t, c)
         == (Link(mem, Framed(ReplyToRead(mem, ByteItem(c.area, c.db, c.start, c.n))), later), Failure(Io))
  {
    LateReader(t, mem, ByteItem(c.area, c.db, c.start, c.n), later);
    OneChunk(Reader(t), Writer(t), Link(mem, [], [Late(0)] + later), t, c);
  }

  /** The next read job returns what is on the stream, and leaves its own reply there. */
  lemma ReaderTakesOldest(t: Terms, mem: Memory, item: Item, head: seq<byte>, data: seq<byte>)
    requires item.address < 0x100_0000 && t.longest >= READ_REQ_LEN && Carries(head, data, t.pdu)
    ensures Reader(t)(Link(mem, Framed(head), []), item)
         == (Link(mem, Framed(ReplyToRead(mem, item)), []), Success(head))
  {
    ReadRoundTrip(item);
    TakesOldest(t, mem, item, ReadRequest(item), head, data);
  }

  lemma TakesOldest(t: Terms, mem: Memory, item: Item, request: seq<byte>, head: seq<byte>, data: seq<byte>)
    requires t.longest >= READ_REQ_LEN == |request| && Parse(request) == Some(Read(item)) && Carries(head, data, t.pdu)
    ensures Transacted(Link(mem, Framed(head), []), t, request, READ_RES_LEN)
         == (Link(mem, Framed(ReplyToRead(mem, item)), []), Success(head))
  {
    var own := Framed(ReplyToRead(mem, item));
    DeliversTheOldest(Framed(head), own, t.pdu, READ_RES_LEN, Prompt, head, own);
  }

  /** A read of one chunk, after one whose reply was late, returns the bytes the earlier one asked for. */
  lemma LateReadServesNext(call: Caller, t: Advancing, mem: Memory, calls: seq<Call>)
    requires Calls(call, t) && |calls| == 2
    requires calls[0].ReadBytes? && calls[1].ReadBytes? && Valid(calls[0]) && Valid(calls[1])
    requires 0 < calls[0].n == calls[1].n <= RdChunk(t)
    requires ReadWorks(t.pdu, t.longest, calls[0].n)
    requires FlatRead(mem, KeyOf(calls[0].area, calls[0].db), calls[0].start, calls[0].n).Success?
    ensures ResultAt(call, Link(mem, [], [Late(0)]), calls, 0) == Failure(Io)
    ensures ResultAt(call, Link(mem, [], [Late(0)]), calls, 1)
         == FlatRead(mem, KeyOf(calls[0].area, calls[0].db), calls[0].start, calls[0].n)
  {
    var c, d := calls[0], calls[1];
    var l, next := Link(mem, [], [Late(0)]), LinkAt(call, Link(mem, [], [Late(0)]), calls, 1);
    LateRead(t, mem, c, []);
    assert [Late(0)] + [] == [Late(0)];
    assert call(l, c) == Made(l, t, c);
    NextRead(t, mem, c, d);
    assert call(next, d) == Made(next, t, d);
  }

  lemma NextRead(t: Advancing, mem: Memory, c: Call, d: Call)
    requires c.ReadBytes? && Valid(c) && d.ReadBytes? && Valid(d) && 0 < c.n == d.n <= RdChunk(t)
    requires ReadWorks(t.pdu, t.longest, c.n) && FlatRead(mem, KeyOf(c.area, c.db), c.start, c.n).Success?
    ensures Made(Link(mem, Framed(ReplyToRead(mem, ByteItem(c.area, c.db, c.start, c.n))), []), t, d).1
         == FlatRead(mem, KeyOf(c.area, c.db), c.start, c.n)
  {
    var head := ReplyToRead(mem, ByteItem(c.area, c.db, c.start, c.n));
    var data := FlatRead(mem, KeyOf(c.area, c.db), c.start, c.n).value;
    ReplyCarries(t.pdu, mem, c.area, c.db, c.start, c.n);
    ReaderTakesOldest(t, mem, ByteItem(d.area, d.db, d.start, d.n), head, data);
    OneChunk(Reader(t), Writer(t), Link(mem, Framed(head), []), t, d);
    FilledWith(head, data);
  }

  lemma FilledWith(s7: seq<byte>, data: seq<byte>)
    requires |s7| == READ_RES_LEN + |data| && s7[READ_RES_LEN..] == data && |data| <= 0xFFFF
    ensures Filled(Success(s7), |data|, Zeros(|data|), 0) == data
  {
  }

  /** Two bytes that differ, and two reads of one byte each: the first times out, the second returns the first byte. */
  lemma LateByteServesNext(call: Caller, t: Advancing, mem: Memory, calls: seq<Call>)
    requires Calls(call, t) && t == Terms(240, 247) && Key(AREA_DB, 1) in mem && mem[Key(AREA_DB, 1)] == [7, 9]
    requires calls == [ReadBytes(AREA_DB, 1, 0, 1), ReadBytes(AREA_DB, 1, 1, 1)]
    ensures ResultAt(call, Link(mem, [], [Late(0)]), calls, 0) == Failure(Io)
    ensures ResultAt(call, Link(mem, [], [Late(0)]), calls, 1) == Success([7])
    ensures call(Link(mem, [], []), calls[1]).1 == Success([9])
  {
    var bytes := mem[Key(AREA_DB, 1)];
    assert bytes[0..1] == [7] && bytes[1..2] == [9];
    LateReadServesNext(call, t, mem, calls);
    ReadAlone(call, t, mem, calls[1]);
  }

  /** A write job that the PLC drops is answered by what is on the stream. */
  lemma DroppedTakesOldest(t: Terms, mem: Memory, request: seq<byte>, head: seq<byte>, data: seq<byte>)
    requires !Takes(t.longest, request) && Carries(head, data, t.pdu) && |data| <= 0xFFFF
    ensures Transacted(Link(mem, Framed(head), []), t, request, WRITE_RES_LEN) == (Link(mem, [], []), Success(head))
  {
    assert Framed(head) + [] == Framed(head);
    DeliversTheOldest(Framed(head), [], t.pdu, WRITE_RES_LEN, Prompt, head, []);
  }

  lemma WriterTakesOldest(t: Terms, mem: Memory, item: Item, payload: seq<byte>, head: seq<byte>, data: seq<byte>)
    requires item.address < 0x100_0000 && item.wordlen == WL_BYTE
    requires |payload| <= 0xFFFF && Dropped(t.longest, |payload|)
    requires Carries(head, data, t.pdu) && |data| <= 0xFFFF
    ensures Writer(t)(Link(mem, Framed(head), []), item, payload) == (Link(mem, [], []), Success(head))
  {
    WriteParsesOrNot(item, payload);
    DroppedTakesOldest(t, mem, WriteRequest(item, payload), head, data);
  }

  lemma DroppedWriteNext(t: Advancing, mem: Memory, c: Call, d: Call)
    requires c.ReadBytes? && Valid(c) && d.WriteBytes? && Valid(d) && 0 < c.n && 0 < |d.data| <= WrChunk(t) <= 0xFFFF
    requires FlatRead(mem, KeyOf(c.area, c.db), c.start, c.n).Success? && ReadWorks(t.pdu, t.longest, c.n)
    requires c.n <= RdChunk(t) && Dropped(t.longest, |d.data|)
    ensures Made(Link(mem, Framed(ReplyToRead(mem, ByteItem(c.area, c.db, c.start, c.n))), []), t, d)
         == (Link(mem, [], []), Success([]))
  {
    var head := ReplyToRead(mem, ByteItem(c.area, c.db, c.start, c.n));
    ReplyCarries(t.pdu, mem, c.area, c.db, c.start, c.n);
    WriterTakesOldest(t, mem, ByteItem(d.area, d.db, d.start, |d.data|), d.data, head,
                      FlatRead(mem, KeyOf(c.area, c.db), c.start, c.n).value);
    OneWriteChunk(Reader(t), Writer(t), Link(mem, Framed(head), []), t, d);
  }

  /**
   A write that the PLC drops, after a read whose reply was late, reports success and writes nothing. It also
   uses up the late reply, so that the call after it is in step again: that no earlier call left anything is
   enough for a call to be in step, but what is needed is that nothing is unread when it starts.
   */
  lemma DroppedWriteSucceeds(call: Caller, t: Advancing, mem: Memory, calls: seq<Call>)
    requires Calls(call, t) && |calls| == 2 && calls[0].ReadBytes? && calls[1].WriteBytes?
    requires Valid(calls[0]) && Valid(calls[1]) && 0 < calls[0].n <= RdChunk(t) && 0 < |calls[1].data| <= WrChunk(t)
    requires FlatRead(mem, KeyOf(calls[0].area, calls[0].db), calls[0].start, calls[0].n).Success?
    requires ReadWorks(t.pdu, t.longest, calls[0].n) && Dropped(t.longest, |calls[1].data|)
    ensures LinkAt(call, Link(mem, [], [Late(0)]), calls, 1).unread != []
    ensures ResultAt(call, Link(mem, [], [Late(0)]), calls, 1) == Success([])
    ensures LinkAt(call, Link(mem, [], [Late(0)]), calls, 2) == Link(mem, [], [])
  {
    var c, d := calls[0], calls[1];
    var l, next := Link(mem, [], [Late(0)]), LinkAt(call, Link(mem, [], [Late(0)]), calls, 1);
    LateRead(t, mem, c, []);
    assert [Late(0)] + [] == [Late(0)];
    assert call(l, c) == Made(l, t, c);
    DroppedWriteNext(t, mem, c, d);
    assert call(next, d) == Made(next, t, d);
  }
}
