/** Commands parsed out of RESP arrays, and the loop that drains a connection's buffer. */
module Commands {
  import opened Bytes
  import opened Options
  import opened Decimals
  import opened Resp

  datatype Command = Command(cmd: Bytes, args: seq<Bytes>)

  datatype Token = Text(text: Bytes) | Bad(reason: TokenError)

  function TokenToString(value: Value, allowInt: bool): Token {
    match value
    case Str(text) => Text(text)
    case Int(n) => if allowInt then Text(FormatInt(n)) else Bad(IntegerNotAllowed)
    case Nil => Bad(NullNotAllowed)
    case Err(_) => Bad(UnsupportedType)
    case List(_) => Bad(UnsupportedType)
  }

  function UpperByte(b: byte): byte {
    if 97 <= b <= 122 then b - 32 else b
  }

  /** strings.ToUpper on ASCII text. */
  function ToUpper(text: Bytes): (r: Bytes)
    ensures |r| == |text|
  {
    seq(|text|, i requires 0 <= i < |text| => UpperByte(text[i]))
  }

  datatype Args = Args(args: seq<Bytes>) | BadArg(index: nat, reason: TokenError)

  /** The argument tokens from position i on; the first bad one is reported. */
  function ArgsFrom(items: seq<Value>, i: nat): Args
    requires i <= |items|
    decreases |items| - i
  {
    if i == |items| then Args([])
    else
      match TokenToString(items[i], true)
      case Bad(reason) => BadArg(i, reason)
      case Text(text) =>
        match ArgsFrom(items, i + 1)
        case BadArg(j, reason) => BadArg(j, reason)
        case Args(args) => Args([text] + args)
  }

  function CommandOf(value: Value, consumed: nat): Result<Command> {
    if !value.List? then Malformed(NotAnArray)
    else if value.items == [] then Malformed(ZeroArity)
    else
      match TokenToString(value.items[0], false)
      case Bad(reason) => Malformed(InvalidCommandToken(reason))
      case Text(text) =>
        match ArgsFrom(value.items, 1)
        case BadArg(i, reason) => Malformed(InvalidArgumentToken(i, reason))
        case Args(args) => Done(Command(ToUpper(text), args), consumed)
  }

  /** One command from the front of the buffer. */
  function Parse(data: Bytes): (r: Result<Command>)
    ensures r.Done? ==> 0 < r.consumed <= |data|
  {
    match Decode(data)
    case Incomplete => Incomplete
    case Malformed(e) => Malformed(e)
    case Done(value, consumed) => CommandOf(value, consumed)
  }

  method ParseCommand(data: Bytes) returns (r: Result<Command>)
    ensures r == Parse(data)
  {
    var decoded := DecodeOne(data);
    if decoded.Incomplete? {
      return Incomplete;
    }
    if decoded.Malformed? {
      return Malformed(decoded.error);
    }
    if !decoded.value.List? {
      return Malformed(NotAnArray);
    }
    var items := decoded.value.items;
    if |items| == 0 {
      return Malformed(ZeroArity);
    }
    var cmd := TokenToString(items[0], false);
    if cmd.Bad? {
      return Malformed(InvalidCommandToken(cmd.reason));
    }
    var args := [];
    for i := 1 to |items|
      invariant ArgsFrom(items, 1) == (match ArgsFrom(items, i)
                                       case Args(rest) => Args(args + rest)
                                       case BadArg(j, reason) => BadArg(j, reason))
    {
      var arg := TokenToString(items[i], true);
      if arg.Bad? {
        return Malformed(InvalidArgumentToken(i, arg.reason));
      }
      assert forall rest: seq<Bytes> :: args + ([arg.text] + rest) == args + [arg.text] + rest;
      args := args + [arg.text];
    }
    assert args + [] == args;
    r := Done(Command(ToUpper(cmd.text), args), decoded.consumed);
  }

  lemma ParseStable(data: Bytes, x: Bytes)
    requires !Parse(data).Incomplete?
    ensures Parse(data + x) == Parse(data)
  {
    DecodeStable(data, x);
  }

  /** At least a name, and lengths that a Go int can hold. */
  predicate Fits(tokens: seq<Bytes>) {
    0 < |tokens| <= MAX_INT64 && forall i :: 0 <= i < |tokens| ==> |tokens[i]| <= MAX_INT64
  }

  /** The name is the text with the letters a to z in capitals, every other byte as it is. */
  ghost predicate InCapitals(text: Bytes, name: Bytes) {
    |name| == |text| && forall i :: 0 <= i < |text| ==> name[i] == if 97 <= text[i] <= 122 then text[i] - 32 else text[i]
  }

  /** An argument may be a string or an integer. */
  ghost predicate IsArgument(value: Value) {
    value.Str? || value.Int?
  }

  lemma {:induction false} ArgumentsTaken(items: seq<Value>, i: nat)
    requires i <= |items|
    ensures match ArgsFrom(items, i)
      case Args(args) =>
        && |args| == |items| - i && (forall j :: i <= j < |items| ==> IsArgument(items[j]))
        && (forall j :: 0 <= j < |args| ==> args[j] == if items[i + j].Str? then items[i + j].text else FormatInt(items[i + j].n))
      case BadArg(index, reason) =>
        && i <= index < |items| && !IsArgument(items[index]) && (forall j :: i <= j < index ==> IsArgument(items[j]))
        && reason == if items[index].Nil? then NullNotAllowed else UnsupportedType
    decreases |items| - i
  {
    hide FormatInt;
    if i < |items| {
      ArgumentsTaken(items, i + 1);
    }
  }

  /** A buffer starts with a command exactly when it starts with an array of a string and arguments; the name
      is that string in capitals, and integer arguments are written out. */
  lemma CommandAccepted(data: Bytes)
    ensures Parse(data).Incomplete? <==> Decode(data).Incomplete?
    ensures Parse(data).Done? <==>
      && Decode(data).Done? && Decode(data).value.List? && Decode(data).value.items != []
      && Decode(data).value.items[0].Str? && forall i :: 0 < i < |Decode(data).value.items| ==> IsArgument(Decode(data).value.items[i])
    ensures Parse(data).Done? ==>
      var items, cmd := Decode(data).value.items, Parse(data).value;
      && Parse(data).consumed == Decode(data).consumed && InCapitals(items[0].text, cmd.cmd) && |cmd.args| == |items| - 1
      && forall i :: 0 <= i < |cmd.args| ==> cmd.args[i] == if items[i + 1].Str? then items[i + 1].text else FormatInt(items[i + 1].n)
  {
    hide Decode, FormatInt;
    if Decode(data).Done? && Decode(data).value.List? && Decode(data).value.items != [] {
      ArgumentsTaken(Decode(data).value.items, 1);
    }
  }

  /** And is rejected for its first fault: not an array, an empty one, a name that is no string, or an argument
      that is neither string nor integer. */
  lemma CommandRejected(data: Bytes)
    requires Decode(data).Done? && Parse(data).Malformed?
    ensures !Decode(data).value.List? ==> Parse(data).error == NotAnArray
    ensures Decode(data).value == List([]) ==> Parse(data).error == ZeroArity
    ensures Decode(data).value.List? && Decode(data).value.items != [] ==>
      var items, error := Decode(data).value.items, Parse(data).error;
      if items[0].Str? then
        && error.InvalidArgumentToken? && 0 < error.index < |items| && !IsArgument(items[error.index])
        && (forall i :: 0 < i < error.index ==> IsArgument(items[i]))
        && error.reason == if items[error.index].Nil? then NullNotAllowed else UnsupportedType
      else
        error == InvalidCommandToken(
          if items[0].Int? then IntegerNotAllowed else if items[0].Nil? then NullNotAllowed else UnsupportedType)
  {
    hide Decode, FormatInt;
    if Decode(data).value.List? && Decode(data).value.items != [] {
      ArgumentsTaken(Decode(data).value.items, 1);
    }
  }

  /** A parse that gives the command these tokens ask for. */
  ghost predicate Asks(tokens: seq<Bytes>, cmd: Command)
    requires tokens != []
  {
    InCapitals(tokens[0], cmd.cmd) && cmd.args == tokens[1..]
  }

  /** A command of bulk strings arrives as its name in capitals and its arguments, whatever follows. */
  lemma CommandRoundTrip(tokens: seq<Bytes>, x: Bytes)
    requires Fits(tokens)
    ensures var e, r := EncodeArrayBulkStrings(tokens), Parse(EncodeArrayBulkStrings(tokens) + x);
      r.Done? && r.consumed == |e| && Asks(tokens, r.value)
  {
    var wires := Bulks(tokens);
    BulksEncode(tokens);
    assert forall i :: 0 <= i < |wires| ==> Sendable(wires[i]);
    ArrayRoundTrip(wires, x);
    hide Decode;
    var items := MeaningEach(wires);
    BulksMean(tokens);
    ArgsOfStrings(items, tokens, 1);
  }

  /** Equal but for the case of letters. */
  ghost predicate SameUpToCase(a: Bytes, b: Bytes) {
    |a| == |b| && forall i :: 0 <= i < |a| ==>
      a[i] == b[i] || (65 <= a[i] <= 90 && b[i] == a[i] + 32) || (97 <= a[i] <= 122 && b[i] == a[i] - 32)
  }

  /** Names give the same command exactly when they are equal but for case. */
  lemma CaseIgnored(a: Bytes, b: Bytes, args: seq<Bytes>, x: Bytes)
    requires Fits([a] + args) && Fits([b] + args)
    ensures Parse(EncodeArrayBulkStrings([a] + args) + x).Done? && Parse(EncodeArrayBulkStrings([b] + args) + x).Done?
    ensures Parse(EncodeArrayBulkStrings([a] + args) + x).value == Parse(EncodeArrayBulkStrings([b] + args) + x).value
      <==> SameUpToCase(a, b)
  {
    CommandRoundTrip([a] + args, x);
    CommandRoundTrip([b] + args, x);
    hide Parse, EncodeArrayBulkStrings;
    var one := Parse(EncodeArrayBulkStrings([a] + args) + x).value;
    var two := Parse(EncodeArrayBulkStrings([b] + args) + x).value;
    assert ([a] + args)[1..] == args == ([b] + args)[1..];
    if SameUpToCase(a, b) {
      assert forall i :: 0 <= i < |a| ==> one.cmd[i] == two.cmd[i];
    }
    if one == two {
      assert forall i :: 0 <= i < |a| ==> one.cmd[i] == two.cmd[i];
    }
  }

  function EncodeArrayBulkStrings(values: seq<Bytes>): Bytes {
    ArrayOf(seq(|values|, i requires 0 <= i < |values| => EncodeBulkString(values[i])))
  }

  ghost function Bulks(tokens: seq<Bytes>): (r: seq<Wire>)
    ensures |r| == |tokens| && forall i :: 0 <= i < |tokens| ==> r[i] == Bulk(tokens[i])
  {
    seq(|tokens|, i requires 0 <= i < |tokens| => Bulk(tokens[i]))
  }

  lemma {:induction false} BulksEncode(tokens: seq<Bytes>)
    ensures EncodeEach(Bulks(tokens)) == seq(|tokens|, i requires 0 <= i < |tokens| => EncodeBulkString(tokens[i]))
  {
    if tokens != [] {
      BulksEncode(tokens[1..]);
      assert Bulks(tokens)[1..] == Bulks(tokens[1..]);
    }
  }

  lemma {:induction false} BulksMean(tokens: seq<Bytes>)
    ensures |MeaningEach(Bulks(tokens))| == |tokens|
    ensures forall i :: 0 <= i < |tokens| ==> MeaningEach(Bulks(tokens))[i] == Str(tokens[i])
  {
    if tokens != [] {
      BulksMean(tokens[1..]);
      assert Bulks(tokens)[1..] == Bulks(tokens[1..]);
    }
  }

  lemma {:induction false} ArgsOfStrings(items: seq<Value>, tokens: seq<Bytes>, i: nat)
    requires |items| == |tokens| && i <= |items|
    requires forall j :: 0 <= j < |tokens| ==> items[j] == Str(tokens[j])
    ensures ArgsFrom(items, i) == Args(tokens[i..])
    decreases |items| - i
  {
    if i < |items| {
      ArgsOfStrings(items, tokens, i + 1);
    }
  }

  // ----- the buffer loop -----

  /** Whether handling the n-th command of a connection fails, as when its reply cannot be written. */
  type Handler = nat -> bool

  /** Why a connection is closed. */
  datatype Stop = Protocol(error: ProtocolError) | HandlerFailed

  /** Commands dispatched off the front of a buffer, the bytes left, and what stopped it. A command whose
      handler fails has been dispatched, but its bytes stay. */
  datatype Drained = Drained(commands: seq<Command>, rest: Bytes, stop: Option<Stop>)

  /** Drain a buffer, when `n` commands were dispatched before. */
  function Drain(h: Handler, n: nat, buffer: Bytes): (d: Drained)
    decreases |buffer|
  {
    match Parse(buffer)
    case Incomplete => Drained([], buffer, None)
    case Malformed(e) => Drained([], buffer, Some(Protocol(e)))
    case Done(cmd, consumed) =>
      if h(n) then Drained([cmd], buffer, Some(HandlerFailed)) else
        var d := Drain(h, n + 1, buffer[consumed..]);
        Drained([cmd] + d.commands, d.rest, d.stop)
  }

  /** What one connection has done: pending bytes, dispatched commands, and why it was closed. */
  datatype Session = Session(pending: Bytes, log: seq<Command>, stop: Option<Stop>)

  const Fresh := Session([], [], None)

  function Feed(h: Handler, s: Session, chunk: Bytes): Session {
    if s.stop.Some? then s else
      var d := Drain(h, |s.log|, s.pending + chunk);
      Session(d.rest, s.log + d.commands, d.stop)
  }

  function FeedAll(h: Handler, s: Session, chunks: seq<Bytes>): Session
    decreases |chunks|
  {
    if chunks == [] then s else FeedAll(h, Feed(h, s, chunks[0]), chunks[1..])
  }

  lemma DrainStep(h: Handler, n: nat, buffer: Bytes, sent: seq<Command>)
    ensures var r, d := Parse(buffer), Drain(h, n, buffer);
      if r.Done? && !h(n) then
        var more := Drain(h, n + 1, buffer[r.consumed..]);
        && sent + d.commands == sent + [r.value] + more.commands
        && d.rest == more.rest && d.stop == more.stop
      else
        && sent + d.commands == (if r.Done? then sent + [r.value] else sent) && d.rest == buffer
        && d.stop == if r.Incomplete? then None else Some(if r.Done? then HandlerFailed else Protocol(r.error))
  {
    hide Parse;
  }

  lemma DrainDone(h: Handler, n: nat, buffer: Bytes)
    requires Parse(buffer).Done? && !h(n)
    ensures var r, d := Parse(buffer), Drain(h, n + 1, buffer[Parse(buffer).consumed..]);
      Drain(h, n, buffer) == Drained([r.value] + d.commands, d.rest, d.stop)
  {
    hide Parse;
  }

  lemma DrainStops(h: Handler, n: nat, buffer: Bytes)
    requires !Parse(buffer).Done? || h(n)
    ensures var r := Parse(buffer);
      Drain(h, n, buffer) ==
      if r.Done? then Drained([r.value], buffer, Some(HandlerFailed))
      else Drained([], buffer, if r.Malformed? then Some(Protocol(r.error)) else None)
  {
    hide Parse;
  }

  /** Draining in two steps is draining at once. */
  lemma {:induction false} DrainMore(h: Handler, n: nat, a: Bytes, b: Bytes)
    ensures var d, all := Drain(h, n, a), Drain(h, n, a + b);
      if d.stop.Some? then all.commands == d.commands && all.stop == d.stop
      else var more := Drain(h, n + |d.commands|, d.rest + b);
        all == Drained(d.commands + more.commands, more.rest, more.stop)
    decreases |a|
  {
    hide Parse, Drain;
    if !Parse(a).Incomplete? {
      ParseStable(a, b);
    }
    if Parse(a).Done? && !h(n) {
      var used := Parse(a).consumed;
      DrainDone(h, n, a);
      DrainDone(h, n, a + b);
      DrainMore(h, n + 1, a[used..], b);
      assert (a + b)[used..] == a[used..] + b;
    } else {
      DrainStops(h, n, a);
      if !Parse(a).Incomplete? {
        DrainStops(h, n, a + b);
      }
    }
  }

  /** Two sessions agree on commands and on why they closed, and on pending bytes while they are open. */
  ghost predicate SameSession(a: Session, b: Session) {
    a.log == b.log && a.stop == b.stop && (a.stop.None? ==> a.pending == b.pending)
  }

  lemma FeedTwice(h: Handler, s: Session, a: Bytes, b: Bytes)
    ensures SameSession(Feed(h, Feed(h, s, a), b), Feed(h, s, a + b))
  {
    hide Drain;
    if s.stop.None? {
      DrainMore(h, |s.log|, s.pending + a, b);
      assert s.pending + a + b == s.pending + (a + b);
      var d := Drain(h, |s.log|, s.pending + a);
      var more := Drain(h, |s.log| + |d.commands|, d.rest + b);
      assert s.log + (d.commands + more.commands) == s.log + d.commands + more.commands;
    }
  }

  /** However a byte stream is cut into reads, the same commands are dispatched in the same order, it stops
      at the same protocol error or failed reply, and otherwise the same bytes stay pending. */
  lemma {:induction false} ChunkIndependence(h: Handler, s: Session, chunks: seq<Bytes>)
    requires s.stop.None? ==> Drain(h, |s.log|, s.pending) == Drained([], s.pending, None)
    ensures SameSession(FeedAll(h, s, chunks), Feed(h, s, Concat(chunks)))
    decreases |chunks|
  {
    hide Parse, Drain;
    if chunks == [] {
      assert s.pending + [] == s.pending;
    } else {
      var one := Feed(h, s, chunks[0]);
      if one.stop.None? {
        DrainRest(h, |s.log|, s.pending + chunks[0]);
      }
      ChunkIndependence(h, one, chunks[1..]);
      FeedTwice(h, s, chunks[0], Concat(chunks[1..]));
    }
  }

  /** What a drain leaves behind holds no further command. */
  lemma {:induction false} DrainRest(h: Handler, n: nat, buffer: Bytes)
    requires Drain(h, n, buffer).stop.None?
    ensures var d := Drain(h, n, buffer); Drain(h, n + |d.commands|, d.rest) == Drained([], d.rest, None)
    decreases |buffer|
  {
    hide Parse;
    if Parse(buffer).Done? {
      DrainRest(h, n + 1, buffer[Parse(buffer).consumed..]);
    }
  }

  ghost function Requests(commands: seq<seq<Bytes>>): (r: seq<Bytes>)
    ensures |r| == |commands|
  {
    if commands == [] then [] else [EncodeArrayBulkStrings(commands[0])] + Requests(commands[1..])
  }

  /** One command for each request, in order. */
  ghost predicate Answers(requests: seq<seq<Bytes>>, commands: seq<Command>) {
    |commands| == |requests| && forall i :: 0 <= i < |requests| ==> requests[i] != [] && Asks(requests[i], commands[i])
  }

  lemma {:induction false} PipelineDrains(h: Handler, n: nat, commands: seq<seq<Bytes>>)
    requires (forall i :: 0 <= i < |commands| ==> Fits(commands[i])) && forall i :: n <= i < n + |commands| ==> !h(i)
    ensures var d := Drain(h, n, Concat(Requests(commands))); Answers(commands, d.commands) && d.rest == [] && d.stop == None
    decreases |commands|
  {
    hide Parse, EncodeArrayBulkStrings, Asks;
    if commands == [] {
      NothingToParse();
    } else {
      assert Fits(commands[0]);
      var first, rest := EncodeArrayBulkStrings(commands[0]), Concat(Requests(commands[1..]));
      assert Requests(commands)[1..] == Requests(commands[1..]);
      assert Concat(Requests(commands)) == first + rest;
      CommandRoundTrip(commands[0], rest);
      assert (first + rest)[|first|..] == rest;
      PipelineDrains(h, n + 1, commands[1..]);
    }
  }

  lemma NothingToParse()
    ensures Parse([]).Incomplete?
  {
  }

  /** A client's commands, written back to back and cut into reads anywhere, are dispatched one by one and in
      order, with nothing left over, as long as no reply fails. */
  lemma PipelineDelivered(h: Handler, commands: seq<seq<Bytes>>, chunks: seq<Bytes>)
    requires (forall i :: 0 <= i < |commands| ==> Fits(commands[i])) && forall i :: 0 <= i < |commands| ==> !h(i)
    requires Concat(chunks) == Concat(Requests(commands))
    ensures var s := FeedAll(h, Fresh, chunks); s.pending == [] && s.stop == None && Answers(commands, s.log)
  {
    hide Drain, Feed, FeedAll;
    DrainNothing(h);
    ChunkIndependence(h, Fresh, chunks);
    PipelineDrains(h, 0, commands);
    FeedFresh(h, Concat(chunks));
  }

  lemma DrainNothing(h: Handler)
    ensures Drain(h, 0, []) == Drained([], [], None)
  {
    NothingToParse();
  }

  lemma FeedFresh(h: Handler, chunk: Bytes)
    ensures var d := Drain(h, 0, chunk); Feed(h, Fresh, chunk) == Session(d.rest, d.commands, d.stop)
  {
    assert [] + chunk == chunk;
    assert forall log: seq<Command> :: [] + log == log;
  }

  /** The reading side of a connection, with a handler that records every command and may fail. */
  class Connection {
    const handler: Handler
    var pending: Bytes
    var log: seq<Command>
    var stop: Option<Stop>

    function State(): Session
      reads this
    {
      Session(pending, log, stop)
    }

    constructor (handler: Handler)
      ensures State() == Fresh && this.handler == handler
    {
      this.handler, pending, log, stop := handler, [], [], None;
    }

    /** Dispatch a command; the result tells whether its handler failed. */
    method OnCommand(cmd: Command) returns (failed: bool)
      modifies `log
      ensures log == old(log) + [cmd] && failed == handler(|old(log)|)
    {
      failed := handler(|log|);
      log := log + [cmd];
    }

    method ProcessRespBuffer() returns (err: Option<Stop>)
      modifies `pending, `log
      ensures var d := old(Drain(handler, |log|, pending)); pending == d.rest && log == old(log) + d.commands && err == d.stop
    {
      hide Parse, Drain;
      ghost var whole, before, sent := Drain(handler, |log|, pending), log, [];
      while true
        invariant log == before + sent && whole.commands == sent + Drain(handler, |log|, pending).commands
        invariant whole.rest == Drain(handler, |log|, pending).rest && whole.stop == Drain(handler, |log|, pending).stop
        decreases |pending|
      {
        DrainStep(handler, |log|, pending, sent);
        var r := ParseCommand(pending);
        if r.Incomplete? {
          return None;
        }
        if r.Malformed? {
          return Some(Protocol(r.error));
        }
        var failed := OnCommand(r.value);
        sent := sent + [r.value];
        if failed {
          return Some(HandlerFailed);
        }
        pending := pending[r.consumed..];
      }
    }

    /** One read from the socket. */
    method HandleRead(chunk: Bytes)
      modifies this
      ensures State() == Feed(handler, old(State()), chunk)
    {
      if stop.None? {
        pending := pending + chunk;
        stop := ProcessRespBuffer();
      }
    }

    /** A whole stream of reads dispatches what the concatenated stream would. */
    method Serve(chunks: seq<Bytes>)
      requires State() == Fresh
      modifies this
      ensures SameSession(State(), Feed(handler, Fresh, Concat(chunks)))
    {
      ghost var start := State();
      for i := 0 to |chunks|
        invariant FeedAll(handler, State(), chunks[i..]) == FeedAll(handler, start, chunks)
      {
        assert chunks[i..][1..] == chunks[i + 1..];
        HandleRead(chunks[i]);
      }
      DrainNothing(handler);
      ChunkIndependence(handler, start, chunks);
    }
  }
}
