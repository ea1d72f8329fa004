/** The JSON-RPC loop over a pair of pipes: a read loop, one task for each request, progress
    streams, and one pump through which every frame is written, in any order of steps. */
module RpcServer {
  import opened Wrappers
  import opened ByteText
  import opened Framing

  datatype IdValue = Null | Text(text: string) | Number(literal: string) | Other(json: string)

  /** The specification allows a string, a number or null; a boolean is none of them. */
  predicate ValidId(id: IdValue) {
    !id.Other?
  }

  datatype Payload = Result(value: string) | Error(code: int)

  const PARSE_ERROR := -32700
  const INVALID_REQUEST := -32600
  const INTERNAL_ERROR := -32603

  datatype Message =
    | Request(id: Option<IdValue>, call: string)
    | Response(answers: IdValue, payload: Payload)
    | Progress(event: string)

  /** The `id` member of a message, if it has one. */
  function IdOf(m: Message): Option<IdValue> {
    match m
    case Request(id, _) => id
    case Response(answers, _) => Some(answers)
    case Progress(_) => None
  }

  /** How invoking the method ended: with a result or an error of its own, or with an exception
      nobody expected. */
  datatype Invoked = Returned(payload: Payload) | Raised

  /** What a handler sends, if anything. */
  function Answer(m: Message, invoked: Invoked): Option<Message> {
    match IdOf(m)
    case None => None
    case Some(id) =>
      if !ValidId(id) then Some(Response(Null, Error(INVALID_REQUEST)))
      else
        match invoked
        case Returned(payload) => Some(Response(id, payload))
        case Raised => Some(Response(id, Error(INTERNAL_ERROR)))
  }

  /** What JSON-RPC asks of a handler: nothing for a message without an id; for an id that is a string, a
      number or null the payload that the method returned, or an internal error; for any other id an
      invalid request, with a null id (section 5 of the JSON-RPC 2.0 Specification). */
  predicate IsAnswer(m: Message, invoked: Invoked, sent: seq<Message>) {
    match m
    case Request(Some(id), _) => IsAnswerTo(id, invoked, sent)
    case Response(id, _) => IsAnswerTo(id, invoked, sent)
    case Request(None, _) => sent == []
    case Progress(_) => sent == []
  }

  predicate IsAnswerTo(id: IdValue, invoked: Invoked, sent: seq<Message>) {
    if id.Null? || id.Text? || id.Number? then
      match invoked
      case Returned(payload) => sent == [Response(id, payload)]
      case Raised => sent == [Response(id, Error(-32603))]
    else
      sent == [Response(Null, Error(-32600))]
  }

  /** The encoding is chosen once for a server. */
  datatype Wire = Wire(codec: Codec<Message>, headers: bool)

  function Framed(wire: Wire, m: Message): Bytes {
    if wire.headers then EncodeWithHeaders(wire.codec, m) else Encode(wire.codec, m)
  }

  /** What is queued for the pump; `origin` records which frame read it answers, if any. */
  datatype Entry = Frame(origin: Option<nat>, message: Message, payload: Bytes) | Stop

  datatype Task = Pending | Finished(invoked: Invoked)

  datatype Phase = Reading | Draining | Stopping | Stopped

  datatype State = State(
    input: Bytes, heard: seq<Outcome<Message>>, tasks: map<nat, Task>,
    outbox: seq<Entry>, written: seq<Entry>, output: Bytes, phase: Phase)

  datatype Step =
    | ReadFrame
    | Finish(k: nat, invoked: Invoked)
    | Stream(event: string)
    | Close
    | Pump

  function Initial(input: Bytes): State {
    State(input, [], map[], [], [], [], Reading)
  }

  function Sent(wire: Wire, s: State, origin: Option<nat>, m: Message): State {
    s.(outbox := s.outbox + [Frame(origin, m, Framed(wire, m))])
  }

  ghost predicate Enabled(wire: Wire, s: State, step: Step) {
    match step
    case ReadFrame => s.phase == Reading && !Read(wire.codec, s.input).0.Escaped?
    case Finish(k, _) => k in s.tasks && s.tasks[k] == Pending && k < |s.heard| && s.heard[k].Message?
    case Stream(_) => true
    case Close => s.phase == Draining && forall k :: k in s.tasks ==> s.tasks[k].Finished?
    case Pump => s.outbox != [] && s.phase != Stopped
  }

  function AfterRead(wire: Wire, s: State): State {
    var (outcome, rest) := Read(wire.codec, s.input);
    var k := |s.heard|;
    var read := s.(input := rest, heard := s.heard + [outcome]);
    match outcome
    case Message(_) => read.(tasks := s.tasks[k := Pending])
    case Malformed(_) => Sent(wire, read, Some(k), Response(Null, Error(PARSE_ERROR)))
    case EndOfInput => read.(phase := Draining)
    case Escaped => s
  }

  function AfterFinish(wire: Wire, s: State, k: nat, invoked: Invoked): State
    requires k < |s.heard| && s.heard[k].Message?
  {
    var done := s.(tasks := s.tasks[k := Finished(invoked)]);
    var answer := Answer(s.heard[k].message, invoked);
    if answer.Some? then Sent(wire, done, Some(k), answer.value) else done
  }

  function AfterPump(s: State): State
    requires s.outbox != []
  {
    var entry := s.outbox[0];
    var popped := s.(outbox := s.outbox[1..]);
    if entry.Stop? then popped.(phase := Stopped)
    else popped.(written := s.written + [entry], output := s.output + entry.payload)
  }

  function Apply(wire: Wire, s: State, step: Step): State
    requires Enabled(wire, s, step)
  {
    match step
    case ReadFrame => AfterRead(wire, s)
    case Finish(k, invoked) => AfterFinish(wire, s, k, invoked)
    case Stream(event) => Sent(wire, s, None, Progress(event))
    case Close => s.(outbox := s.outbox + [Stop], phase := Stopping)
    case Pump => AfterPump(s)
  }

  /** The messages of some entries. */
  function MessagesIn(log: seq<Entry>): (messages: seq<Message>)
    requires forall i :: 0 <= i < |log| ==> log[i].Frame?
  {
    seq(|log|, i requires 0 <= i < |log| => log[i].message)
  }

  predicate IsReply(m: Message, invoked: Invoked, log: seq<Entry>) {
    (forall i :: 0 <= i < |log| ==> log[i].Frame?) && IsAnswer(m, invoked, MessagesIn(log))
  }

  /** The server object: one method for each thing its coroutines do between two suspensions. */
  class Server {
    const wire: Wire
    var input: StreamReader
    var heard: seq<Outcome<Message>>
    var tasks: map<nat, Task>
    var outbox: seq<Entry>
    var written: seq<Entry>
    var output: Bytes
    var phase: Phase

    constructor (wire: Wire, input: StreamReader)
      ensures this.wire == wire && this.input == input && Now() == Initial(input.buffer)
    {
      this.wire, this.input := wire, input;
      heard, tasks, outbox, written, output, phase := [], map[], [], [], [], Reading;
    }

    ghost function Now(): State
      reads this, input
    {
      State(input.buffer, heard, tasks, outbox, written, output, phase)
    }

    method Send(origin: Option<nat>, m: Message)
      modifies this`outbox
      ensures Now() == Sent(wire, old(Now()), origin, m)
    {
      var payload := if wire.headers then EncodeWithHeaders(wire.codec, m) else Encode(wire.codec, m);
      outbox := outbox + [Frame(origin, m, payload)];
    }

    /** One turn of the read loop. */
    method ReadTurn()
      requires Enabled(wire, Now(), ReadFrame)
      modifies this, input
      ensures input == old(input) && Now() == Apply(wire, old(Now()), ReadFrame)
      ensures var (outcome, rest) := Read(wire.codec, old(input.buffer));
              && input.buffer == rest && heard == old(heard) + [outcome]
              && written == old(written) && output == old(output)
              && tasks == (if outcome.Message? then old(tasks)[|old(heard)| := Pending] else old(tasks))
              && phase == (if outcome.EndOfInput? then Draining else old(phase))
              && outbox == (if outcome.Malformed? then
                              var report := Response(Null, Error(-32700));
                              old(outbox) + [Frame(Some(|old(heard)|), report, Framed(wire, report))]
                            else old(outbox))
    {
      var k := |heard|;
      var outcome := ReadMessage(wire.codec, input);
      heard := heard + [outcome];
      match outcome
      case Malformed(_) => Send(Some(k), Response(Null, Error(PARSE_ERROR)));
      case EndOfInput => phase := Draining;
      case Message(_) => tasks := tasks[k := Pending];
    }

    /** The end of a handler whose method ended as `invoked`. */
    method Handle(k: nat, invoked: Invoked)
      requires Enabled(wire, Now(), Finish(k, invoked))
      modifies this
      ensures input == old(input) && Now() == Apply(wire, old(Now()), Finish(k, invoked))
      ensures heard == old(heard) && tasks == old(tasks)[k := Finished(invoked)]
      ensures written == old(written) && output == old(output) && phase == old(phase)
      ensures IsReply(old(heard)[k].message, invoked, outbox[|old(outbox)|..]) && old(outbox) <= outbox
      ensures forall i :: |old(outbox)| <= i < |outbox| ==>
                outbox[i].Frame? && outbox[i].origin == Some(k) && outbox[i].payload == Framed(wire, outbox[i].message)
    {
      tasks := tasks[k := Finished(invoked)];
      var id := IdOf(heard[k].message);
      var notification := id.None?;
      if !notification && !ValidId(id.value) {
        Send(Some(k), Response(Null, Error(INVALID_REQUEST)));
        return;
      }
      if invoked.Raised? {
        if notification {
          return;
        }
        Send(Some(k), Response(id.value, Error(INTERNAL_ERROR)));
        return;
      }
      if !notification {
        Send(Some(k), Response(id.value, invoked.payload));
      }
    }

    /** One turn of the pump. */
    method PumpTurn()
      requires Enabled(wire, Now(), Pump)
      modifies this
      ensures input == old(input) && Now() == Apply(wire, old(Now()), Pump)
      ensures outbox == old(outbox)[1..] && heard == old(heard) && tasks == old(tasks)
      ensures match old(outbox)[0]
              case Stop => phase == Stopped && written == old(written) && output == old(output)
              case Frame(origin, message, payload) =>
                phase == old(phase) && written == old(written) + [Frame(origin, message, payload)]
                && output == old(output) + payload
    {
      var entry := outbox[0];
      outbox := outbox[1..];
      if entry.Stop? {
        phase := Stopped;
      } else {
        written := written + [entry];
        output := output + entry.payload;
      }
    }
  }

  // --------------------------------------------------------------------------- what is owed

  /** The messages on `log` that answer frame `k`. */
  function Answers(log: seq<Entry>, k: nat): seq<Message>
    decreases |log|
  {
    if log == [] then []
    else (if log[0].Frame? && log[0].origin == Some(k) then [log[0].message] else []) + Answers(log[1..], k)
  }

  /** What an unreadable frame, or a request whose method ended as `invoked`, is owed. */
  function Owed(outcome: Outcome<Message>, invoked: Invoked): seq<Message> {
    match outcome
    case Malformed(_) => [Response(Null, Error(PARSE_ERROR))]
    case Message(m) => (match Answer(m, invoked) case Some(answer) => [answer] case None => [])
    case _ => []
  }

  /** What has been put on the queue for frame `k` so far. */
  function Due(s: State, k: nat): seq<Message> {
    if k >= |s.heard| then []
    else if s.heard[k].Malformed? then [Response(Null, Error(PARSE_ERROR))]
    else if s.heard[k].Message? && k in s.tasks && s.tasks[k].Finished? then
      Owed(s.heard[k], s.tasks[k].invoked)
    else []
  }

  lemma {:induction false} AnswersOfConcat(left: seq<Entry>, right: seq<Entry>, k: nat)
    ensures Answers(left + right, k) == Answers(left, k) + Answers(right, k)
    decreases |left|
  {
    if left == [] {
      assert left + right == right;
    } else {
      assert (left + right)[1..] == left[1..] + right;
      AnswersOfConcat(left[1..], right, k);
    }
  }

  lemma AnswersOfPushed(log: seq<Entry>, entry: Entry, k: nat)
    ensures Answers(log + [entry], k)
            == Answers(log, k) + if entry.Frame? && entry.origin == Some(k) then [entry.message] else []
  {
    AnswersOfConcat(log, [entry], k);
    assert [entry][1..] == [];
  }

  function Payloads(log: seq<Entry>): Bytes
    decreases |log|
  {
    if log == [] then []
    else (if log[0].Frame? then log[0].payload else []) + Payloads(log[1..])
  }

  lemma {:induction false} PayloadsOfPushed(log: seq<Entry>, entry: Entry)
    ensures Payloads(log + [entry]) == Payloads(log) + if entry.Frame? then entry.payload else []
    decreases |log|
  {
    if log == [] {
      assert log + [entry] == [entry];
    } else {
      assert (log + [entry])[1..] == log[1..] + [entry];
      PayloadsOfPushed(log[1..], entry);
      var head := if log[0].Frame? then log[0].payload else [];
      var tail := if entry.Frame? then entry.payload else [];
      assert head + (Payloads(log[1..]) + tail) == (head + Payloads(log[1..])) + tail;
    }
  }

  // -------------------------------------------------------------------------- the invariant

  /** Queued and written frames hold the encoding of their message; only progress has no origin. */
  ghost predicate Whole(wire: Wire, log: seq<Entry>) {
    forall i :: 0 <= i < |log| && log[i].Frame? ==>
      && log[i].payload == Framed(wire, log[i].message)
      && (log[i].origin.None? ==> log[i].message.Progress?)
  }

  ghost predicate NoStop(log: seq<Entry>) {
    forall i :: 0 <= i < |log| ==> log[i].Frame?
  }

  /** Nothing but progress follows the end mark. */
  ghost predicate StopIsLastAnswer(log: seq<Entry>) {
    exists i :: 0 <= i < |log| && log[i].Stop?
      && forall j :: 0 <= j < |log| && j != i ==> log[j].Frame? && (j > i ==> log[j].origin.None?)
  }

  ghost predicate OnlyProgress(log: seq<Entry>) {
    forall i :: 0 <= i < |log| ==> log[i].Frame? && log[i].origin.None?
  }

  ghost predicate QueueInv(wire: Wire, s: State) {
    && Whole(wire, s.written) && Whole(wire, s.outbox) && NoStop(s.written)
    && s.output == Payloads(s.written)
    && (match s.phase
        case Stopping => StopIsLastAnswer(s.outbox)
        case Stopped => OnlyProgress(s.outbox)
        case _ => NoStop(s.outbox))
  }

  ghost predicate HeardInv(wire: Wire, input: Bytes, s: State) {
    && Outcomes(wire.codec, input) == s.heard + (if s.phase == Reading then Outcomes(wire.codec, s.input) else [])
    && (forall k: nat :: k in s.tasks <==> k < |s.heard| && s.heard[k].Message?)
    && (s.phase == Stopping || s.phase == Stopped ==> forall k :: k in s.tasks ==> s.tasks[k].Finished?)
  }

  ghost predicate Settled(s: State, k: nat) {
    Answers(s.written, k) + Answers(s.outbox, k) == Due(s, k)
  }

  ghost predicate AnswersInv(s: State) {
    forall k: nat :: Settled(s, k)
  }

  ghost predicate Inv(wire: Wire, input: Bytes, s: State) {
    QueueInv(wire, s) && HeardInv(wire, input, s) && AnswersInv(s)
  }

  lemma SentKeepsQueueInv(wire: Wire, s: State, origin: Option<nat>, m: Message)
    requires QueueInv(wire, s) && (origin.None? ==> m.Progress?)
    requires origin.Some? ==> s.phase == Reading || s.phase == Draining
    ensures QueueInv(wire, Sent(wire, s, origin, m))
  {
    hide Framed;
    var after := Sent(wire, s, origin, m).outbox;
    if s.phase == Stopping {
      var i :| 0 <= i < |s.outbox| && s.outbox[i].Stop?
        && forall j :: 0 <= j < |s.outbox| && j != i ==>
             s.outbox[j].Frame? && (j > i ==> s.outbox[j].origin.None?);
      assert after[i].Stop?;
      assert StopIsLastAnswer(after);
    }
  }

  lemma SentAnswers(wire: Wire, s: State, origin: Option<nat>, m: Message, k: nat)
    ensures Answers(Sent(wire, s, origin, m).outbox, k)
            == Answers(s.outbox, k) + if origin == Some(k) then [m] else []
  {
    AnswersOfPushed(s.outbox, Frame(origin, m, Framed(wire, m)), k);
  }

  lemma ReadKeepsSettled(wire: Wire, s: State, j: nat)
    requires Enabled(wire, s, ReadFrame) && Settled(s, j)
    requires forall k: nat :: k in s.tasks <==> k < |s.heard| && s.heard[k].Message?
    ensures Settled(AfterRead(wire, s), j)
  {
    hide Read, Framed, Answers, Owed;
    var outcome, k := Read(wire.codec, s.input).0, |s.heard|;
    assert j == k ==> Due(s, j) == [];
    if outcome.Malformed? {
      SentAnswers(wire, s, Some(k), Response(Null, Error(PARSE_ERROR)), j);
    }
  }

  lemma ReadKeepsQueueInv(wire: Wire, s: State)
    requires QueueInv(wire, s) && Enabled(wire, s, ReadFrame)
    ensures QueueInv(wire, AfterRead(wire, s))
  {
    var (outcome, rest) := Read(wire.codec, s.input);
    hide Read, Framed, Payloads, Whole, NoStop;
    if outcome.Malformed? {
      SentKeepsQueueInv(wire, s, Some(|s.heard|), Response(Null, Error(PARSE_ERROR)));
    }
  }

  lemma OneMoreOutcome(codec: Codec<Message>, heard: seq<Outcome<Message>>, input: Bytes)
    ensures var (outcome, rest) := Read(codec, input);
            heard + Outcomes(codec, input)
            == (heard + [outcome])
               + if outcome.EndOfInput? || outcome.Escaped? then [] else Outcomes(codec, rest)
  {
    FirstOutcome(codec, input);
    hide Read, Outcomes;
    var (outcome, rest) := Read(codec, input);
    var tail := if outcome.EndOfInput? || outcome.Escaped? then [] else Outcomes(codec, rest);
    assert heard + ([outcome] + tail) == (heard + [outcome]) + tail;
  }

  lemma ReadKeepsHeardInv(wire: Wire, input: Bytes, s: State)
    requires HeardInv(wire, input, s) && Enabled(wire, s, ReadFrame)
    ensures HeardInv(wire, input, AfterRead(wire, s))
  {
    hide Read, Framed, Outcomes;
    OneMoreOutcome(wire.codec, s.heard, s.input);
  }

  lemma ReadKeepsInv(wire: Wire, input: Bytes, s: State)
    requires Inv(wire, input, s) && Enabled(wire, s, ReadFrame)
    ensures Inv(wire, input, AfterRead(wire, s))
  {
    ReadKeepsHeardInv(wire, input, s);
    ReadKeepsQueueInv(wire, s);
    forall j: nat
      ensures Settled(AfterRead(wire, s), j)
    {
      ReadKeepsSettled(wire, s, j);
    }
    hide Settled, QueueInv, HeardInv, AfterRead, Enabled;
  }

  lemma FinishKeepsSettled(wire: Wire, s: State, k: nat, invoked: Invoked, j: nat)
    requires Enabled(wire, s, Finish(k, invoked)) && Settled(s, j)
    ensures Settled(AfterFinish(wire, s, k, invoked), j)
  {
    hide Framed, Answers, Answer;
    var answer := Answer(s.heard[k].message, invoked);
    if answer.Some? {
      SentAnswers(wire, s, Some(k), answer.value, j);
    }
  }

  lemma FinishKeepsInv(wire: Wire, input: Bytes, s: State, k: nat, invoked: Invoked)
    requires Inv(wire, input, s) && Enabled(wire, s, Finish(k, invoked))
    ensures Inv(wire, input, Apply(wire, s, Finish(k, invoked)))
  {
    var after := AfterFinish(wire, s, k, invoked);
    var answer := Answer(s.heard[k].message, invoked);
    forall j: nat
      ensures Settled(after, j)
    {
      FinishKeepsSettled(wire, s, k, invoked, j);
    }
    hide Settled, Framed, Payloads, Whole, NoStop, Answer, Outcomes;
    if answer.Some? {
      SentKeepsQueueInv(wire, s, Some(k), answer.value);
    }
  }

  lemma DueIsOfHeard(s: State, t: State, k: nat)
    requires s.heard == t.heard && s.tasks == t.tasks
    ensures Due(s, k) == Due(t, k)
  {
  }

  lemma StreamKeepsInv(wire: Wire, input: Bytes, s: State, event: string)
    requires Inv(wire, input, s)
    ensures Inv(wire, input, Sent(wire, s, None, Progress(event)))
  {
    SentKeepsQueueInv(wire, s, None, Progress(event));
    var after := Sent(wire, s, None, Progress(event));
    hide QueueInv, Framed, Answers, Due, Outcomes;
    assert HeardInv(wire, input, after);
    hide HeardInv;
    forall j: nat
      ensures Settled(after, j)
    {
      assert Settled(s, j);
      SentAnswers(wire, s, None, Progress(event), j);
      DueIsOfHeard(s, after, j);
    }
  }

  lemma CloseKeepsInv(wire: Wire, input: Bytes, s: State)
    requires Inv(wire, input, s) && Enabled(wire, s, Close)
    ensures Inv(wire, input, Apply(wire, s, Close))
  {
    hide Framed, Due, Outcomes, Answers, Payloads;
    var after := Apply(wire, s, Close);
    assert after.outbox[|s.outbox|].Stop?;
    assert QueueInv(wire, after) && HeardInv(wire, input, after);
    hide QueueInv, HeardInv;
    forall j: nat
      ensures Settled(after, j)
    {
      assert Settled(s, j);
      AnswersOfPushed(s.outbox, Stop, j);
      DueIsOfHeard(s, after, j);
    }
  }

  lemma PumpKeepsSettled(s: State, j: nat)
    requires s.outbox != [] && Settled(s, j)
    ensures Settled(AfterPump(s), j)
  {
    hide Owed, Due;
    AnswersOfPushed(s.written, s.outbox[0], j);
    assert Due(AfterPump(s), j) == Due(s, j) by {
      DueIsOfHeard(s, AfterPump(s), j);
    }
  }

  lemma PumpKeepsQueueInv(wire: Wire, s: State)
    requires QueueInv(wire, s) && Enabled(wire, s, Pump)
    ensures QueueInv(wire, AfterPump(s))
  {
    hide Framed;
    PayloadsOfPushed(s.written, s.outbox[0]);
    hide Payloads;
    var after := AfterPump(s);
    if s.phase == Stopping {
      var i :| 0 <= i < |s.outbox| && s.outbox[i].Stop?
        && forall j :: 0 <= j < |s.outbox| && j != i ==>
             s.outbox[j].Frame? && (j > i ==> s.outbox[j].origin.None?);
      if i > 0 {
        assert after.outbox[i - 1].Stop?;
        assert StopIsLastAnswer(after.outbox);
      } else {
        assert OnlyProgress(after.outbox);
      }
    }
  }

  lemma PumpKeepsInv(wire: Wire, input: Bytes, s: State)
    requires Inv(wire, input, s) && Enabled(wire, s, Pump)
    ensures Inv(wire, input, Apply(wire, s, Pump))
  {
    PumpKeepsQueueInv(wire, s);
    forall j: nat
      ensures Settled(AfterPump(s), j)
    {
      assert Settled(s, j);
      PumpKeepsSettled(s, j);
    }
    hide Settled, Outcomes;
    assert s.outbox[0].Stop? ==> s.phase == Stopping;
    hide QueueInv;
  }

  lemma StepKeepsInv(wire: Wire, input: Bytes, s: State, step: Step)
    requires Inv(wire, input, s) && Enabled(wire, s, step)
    ensures Inv(wire, input, Apply(wire, s, step))
  {
    match step
    case ReadFrame => ReadKeepsInv(wire, input, s);
    case Finish(k, invoked) => FinishKeepsInv(wire, input, s, k, invoked);
    case Stream(event) => StreamKeepsInv(wire, input, s, event);
    case Close => CloseKeepsInv(wire, input, s);
    case Pump => PumpKeepsInv(wire, input, s);
  }

  // ------------------------------------------------------------------------- over whole runs

  ghost predicate Legal(wire: Wire, s: State, steps: seq<Step>)
    decreases |steps|
  {
    steps == [] || (Enabled(wire, s, steps[0]) && Legal(wire, Apply(wire, s, steps[0]), steps[1..]))
  }

  ghost function After(wire: Wire, s: State, steps: seq<Step>): State
    requires Legal(wire, s, steps)
    decreases |steps|
  {
    if steps == [] then s else After(wire, Apply(wire, s, steps[0]), steps[1..])
  }

  ghost predicate Reachable(wire: Wire, input: Bytes, s: State) {
    exists steps :: Legal(wire, Initial(input), steps) && After(wire, Initial(input), steps) == s
  }

  lemma {:induction false} RunKeepsInv(wire: Wire, input: Bytes, s: State, steps: seq<Step>)
    requires Inv(wire, input, s) && Legal(wire, s, steps)
    ensures Inv(wire, input, After(wire, s, steps))
    decreases |steps|
  {
    if steps != [] {
      hide Inv, Enabled, Apply;
      StepKeepsInv(wire, input, s, steps[0]);
      RunKeepsInv(wire, input, Apply(wire, s, steps[0]), steps[1..]);
    }
  }

  lemma InitialInv(wire: Wire, input: Bytes)
    ensures Inv(wire, input, Initial(input))
  {
    hide Outcomes;
    assert [] + Outcomes(wire.codec, input) == Outcomes(wire.codec, input);
  }

  lemma ReachableInv(wire: Wire, input: Bytes, s: State)
    requires Reachable(wire, input, s)
    ensures Inv(wire, input, s)
  {
    var steps :| Legal(wire, Initial(input), steps) && After(wire, Initial(input), steps) == s;
    hide Inv;
    InitialInv(wire, input);
    RunKeepsInv(wire, input, Initial(input), steps);
  }

  lemma {:induction false} ProgressAnswersNothing(log: seq<Entry>, k: nat)
    requires OnlyProgress(log)
    ensures Answers(log, k) == []
    decreases |log|
  {
    if log != [] {
      ProgressAnswersNothing(log[1..], k);
    }
  }

  lemma OwedIsAnswer(m: Message, invoked: Invoked)
    ensures IsAnswer(m, invoked, Owed(Outcome.Message(m), invoked))
  {
  }

  /** Whatever the schedule: by the time the pump stops every frame of the input has been heard,
      every handler has finished, each request with an id has exactly one response, with its own id and
      the payload its method returned, or the error it is due; each unreadable frame has exactly one
      parse error; and a notification has nothing. */
  lemma EachFrameIsAnsweredOnce(wire: Wire, input: Bytes, s: State, k: nat)
    requires Reachable(wire, input, s) && s.phase == Stopped && k < |Outcomes(wire.codec, input)|
    ensures s.heard == Outcomes(wire.codec, input)
    ensures s.heard[k].Malformed? ==> Answers(s.written, k) == [Response(Null, Error(-32700))]
    ensures s.heard[k].Message? ==>
              && k in s.tasks && s.tasks[k].Finished?
              && IsAnswer(s.heard[k].message, s.tasks[k].invoked, Answers(s.written, k))
    ensures s.heard[k].EndOfInput? ==> Answers(s.written, k) == []
  {
    hide Reachable, Outcomes, IsAnswer;
    ReachableInv(wire, input, s);
    assert s.heard == Outcomes(wire.codec, input) by {
      assert s.heard + [] == s.heard;
    }
    assert Settled(s, k);
    assert OnlyProgress(s.outbox);
    ProgressAnswersNothing(s.outbox, k);
    assert Answers(s.written, k) + [] == Answers(s.written, k);
    if s.heard[k].Message? {
      hide Owed;
      OwedIsAnswer(s.heard[k].message, s.tasks[k].invoked);
    }
  }

  // ------------------------------------------------------------------------------ the events

  /** The progress events on a log, in order. */
  function Events(log: seq<Entry>): seq<string>
    decreases |log|
  {
    if log == [] then []
    else (if log[0].Frame? && log[0].message.Progress? then [log[0].message.event] else []) + Events(log[1..])
  }

  function Streamed(steps: seq<Step>): seq<string>
    decreases |steps|
  {
    if steps == [] then [] else (if steps[0].Stream? then [steps[0].event] else []) + Streamed(steps[1..])
  }

  lemma {:induction false} EventsOfPushed(log: seq<Entry>, entry: Entry)
    ensures Events(log + [entry])
            == Events(log) + if entry.Frame? && entry.message.Progress? then [entry.message.event] else []
    decreases |log|
  {
    if log == [] {
      assert log + [entry] == [entry];
    } else {
      assert (log + [entry])[1..] == log[1..] + [entry];
      EventsOfPushed(log[1..], entry);
    }
  }

  lemma EventsPopped(log: seq<Entry>)
    requires log != []
    ensures Events(log) == (if log[0].Frame? && log[0].message.Progress? then [log[0].message.event] else [])
                           + Events(log[1..])
  {
  }

  lemma StreamedFirst(steps: seq<Step>)
    ensures Streamed(steps)
            == if steps == [] then [] else (if steps[0].Stream? then [steps[0].event] else []) + Streamed(steps[1..])
  {
  }

  lemma StepSendsEvents(wire: Wire, s: State, step: Step)
    requires Enabled(wire, s, step)
    ensures var after := Apply(wire, s, step);
            Events(after.written) + Events(after.outbox)
            == Events(s.written) + Events(s.outbox) + if step.Stream? then [step.event] else []
  {
    hide Framed, Read, Events;
    match step
    case ReadFrame =>
      var report := Response(Null, Error(PARSE_ERROR));
      EventsOfPushed(s.outbox, Frame(Some(|s.heard|), report, Framed(wire, report)));
    case Finish(k, invoked) =>
      var answer := Answer(s.heard[k].message, invoked);
      if answer.Some? {
        EventsOfPushed(s.outbox, Frame(Some(k), answer.value, Framed(wire, answer.value)));
      }
    case Stream(event) => EventsOfPushed(s.outbox, Frame(None, Progress(event), Framed(wire, Progress(event))));
    case Close => EventsOfPushed(s.outbox, Stop);
    case Pump =>
      EventsOfPushed(s.written, s.outbox[0]);
      EventsPopped(s.outbox);
  }

  /** Over any run the events written and still queued are those written and queued before and then
      those the streams sent, each once and in the order they were sent. */
  lemma {:induction false} EventsKeepTheirOrder(wire: Wire, s: State, steps: seq<Step>)
    requires Legal(wire, s, steps)
    ensures var after := After(wire, s, steps);
            Events(after.written) + Events(after.outbox) == Events(s.written) + Events(s.outbox) + Streamed(steps)
    decreases |steps|
  {
    StreamedFirst(steps);
    if steps == [] {
      assert Events(s.written) + Events(s.outbox) + [] == Events(s.written) + Events(s.outbox);
    } else {
      hide Enabled, Apply, Events, Streamed;
      var next := Apply(wire, s, steps[0]);
      StepSendsEvents(wire, s, steps[0]);
      EventsKeepTheirOrder(wire, next, steps[1..]);
      Regrouped(Events(s.written) + Events(s.outbox), if steps[0].Stream? then [steps[0].event] else [],
                Streamed(steps[1..]));
    }
  }

  lemma Regrouped(a: seq<string>, b: seq<string>, c: seq<string>)
    ensures (a + b) + c == a + (b + c)
  {
  }

  lemma {:induction false} LoggedIsAnswer(log: seq<Entry>, i: nat, k: nat)
    requires i < |log| && log[i].Frame? && log[i].origin == Some(k)
    ensures Answers(log, k) != []
    decreases |log|
  {
    if i > 0 {
      LoggedIsAnswer(log[1..], i - 1, k);
    }
  }

  /** At no moment has a response been written that answers nothing. */
  lemma EveryResponseAnswersAFrame(wire: Wire, input: Bytes, s: State, i: nat)
    requires Reachable(wire, input, s) && i < |s.written| && s.written[i].Frame?
    requires s.written[i].message.Response?
    ensures s.written[i].origin.Some? && s.written[i].origin.value < |s.heard|
    ensures Answers(s.written, s.written[i].origin.value) != []
  {
    hide Reachable;
    ReachableInv(wire, input, s);
    hide Framed, HeardInv;
    assert s.written[i].origin.Some?;
    var k := s.written[i].origin.value;
    LoggedIsAnswer(s.written, i, k);
    assert Settled(s, k);
  }

  function ItemsOf(headers: bool, log: seq<Entry>): seq<Item<Message>>
    decreases |log|
  {
    if log == [] then []
    else
      (if log[0].Stop? then [] else if headers then [Counted(log[0].message)] else [Line(log[0].message)])
      + ItemsOf(headers, log[1..])
  }

  /** The messages of a log, as a reader would report them. */
  function Spoken(log: seq<Entry>): seq<Outcome<Message>>
    decreases |log|
  {
    if log == [] then []
    else (if log[0].Frame? then [Outcome.Message(log[0].message)] else []) + Spoken(log[1..])
  }

  lemma {:induction false} PayloadsAreItems(wire: Wire, log: seq<Entry>)
    requires Whole(wire, log) && NoStop(log) && Encodable(wire, log)
    ensures WrittenAll(wire.codec, ItemsOf(wire.headers, log)) == Payloads(log)
    ensures forall i :: 0 <= i < |ItemsOf(wire.headers, log)| ==>
              var item := ItemsOf(wire.headers, log)[i];
              (item.Line? || item.Counted?) && IsEncoding(wire.codec, item.message)
    ensures MessagesOf(ItemsOf(wire.headers, log)) == Spoken(log)
    decreases |log|
  {
    if log != [] {
      PayloadsAreItems(wire, log[1..]);
      var items := ItemsOf(wire.headers, log);
      assert items[1..] == ItemsOf(wire.headers, log[1..]);
    }
  }

  /** The codec encodes what was sent. */
  ghost predicate Encodable(wire: Wire, log: seq<Entry>) {
    forall i :: 0 <= i < |log| && log[i].Frame? ==> IsEncoding(wire.codec, log[i].message)
  }

  /** At every moment the bytes written are whole frames: a peer that read them would read back
      exactly the messages sent, in the order the pump took them. */
  lemma OutputIsWholeFrames(wire: Wire, input: Bytes, s: State)
    requires Reachable(wire, input, s) && Encodable(wire, s.written)
    ensures NoStop(s.written)
    ensures Outcomes(wire.codec, s.output) == Spoken(s.written) + [EndOfInput]
  {
    hide Reachable;
    ReachableInv(wire, input, s);
    hide Outcomes, HeardInv, AnswersInv;
    PayloadsAreItems(wire, s.written);
    MixedFramingsRoundTrip(wire.codec, ItemsOf(wire.headers, s.written));
  }

  /** Until the pump stops there is always a next step that is not a peer's doing or a stream's. */
  lemma NeverStuck(wire: Wire, input: Bytes, s: State, invoked: Invoked) returns (step: Step)
    requires Reachable(wire, input, s) && s.phase != Stopped
    requires s.phase == Reading ==> !Read(wire.codec, s.input).0.Escaped?
    ensures Enabled(wire, s, step) && !step.Stream?
  {
    hide Reachable;
    ReachableInv(wire, input, s);
    hide Outcomes, Read;
    match s.phase
    case Reading => step := ReadFrame;
    case Draining =>
      if k :| k in s.tasks && s.tasks[k] == Pending {
        step := Finish(k, invoked);
      } else {
        step := Close;
      }
    case _ => step := Pump;
  }
}
