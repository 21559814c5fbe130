/**
 The whole system in every interleaving: one host caller (harness/harness.go), the request loop
 (extension/extension.go), and any number of goroutines emitting notifications, all writing through
 the lock of jsonrpc/transport.go.

 Writer 0 is the request loop: it sends what the handlers of a request emit while they run, then the
 response. Emitters, the goroutines that extensions start, are the writers above it. Writes do not
 fail here, and every message fits the reader's line limit.

 Pipes are unbounded here, and every result about the states reached holds all the more where pipes
 block: a blocking pipe only rules actions out. `Unblocked` says which.
 */
module Concurrent {
  import opened Wrappers

  import opened Envelope
  import opened Framing
  import opened Ndjson
  import opened Handlers
  import opened Dispatcher
  import opened SessionLaws
  import opened WriteLock
  import opened Harness

  datatype Config = Config(codec: Codec, ext: Extension, extLimit: nat, hostLimit: nat)

  /** The host waits for the response to one call; Stuck is a failed assertion of the test harness. */
  datatype Host = HostIdle | Awaiting(id: int) | Stuck

  datatype Loop = Reading | Handling(req: Request) | Sending(req: Request, pending: seq<Outgoing>)
                | Failing | Stopped

  datatype Sys = Sys(
    host: Host,
    nextID: int,
    stored: Store,
    drained: Store,                     // history: everything ReceivedNotifications has returned
    consumed: nat,                      // bytes of the output the host has read
    input: bytes,                       // bytes the loop has not read
    closed: bool,
    cancelled: bool,
    loop: Loop,
    io: Io,
    queue: seq<Request>,                // history: the requests whose bytes make up the input
    sent: seq<Request>,                 // history
    handled: seq<Request>,              // history
    dropped: seq<Request>,              // history: read after cancellation
    lost: bool,                         // history: a request has been left without an answer
    seen: nat                           // history: messages the host has read
  )

  const INITIAL := Sys(HostIdle, 0, map[], map[], 0, [], false, false, Reading, START, [], [], [], [], false, 0)

  datatype Action =
    | HostCall(name: string, params: Option<Raw>)
    | HostRead
    | Drain(name: string)
    | Close
    | Cancel
    | LoopRead
    | Serve
    | Send
    | Return
    | Emit(w: nat, notification: Notification)
    | Write(step: Step)

  function Unread(s: Sys): bytes {
    if s.consumed <= |s.io.output| then s.io.output[s.consumed..] else []
  }

  function NextCall(s: Sys, name: string, params: Option<Raw>): Request {
    Request(name, params, s.nextID + 1)
  }

  predicate OutFits(cfg: Config, m: Outgoing) {
    |cfg.codec.encodeOut(m)| < cfg.hostLimit
  }

  predicate CanDo(cfg: Config, s: Sys, a: Action) {
    match a
    case HostCall(name, params) =>
      s.host.HostIdle? && !s.closed && |cfg.codec.encodeRequest(NextCall(s, name, params))| < cfg.extLimit
    case HostRead => s.host.Awaiting? && LF in Unread(s)
    case Drain(_) => true
    case Close => s.host.HostIdle?
    case Cancel => true
    case LoopRead => s.loop.Reading? && s.io.Pc(0).Idle? && (LF in s.input || s.closed)
    case Serve => s.loop.Handling? && s.io.Pc(0).Idle?
    case Send => s.loop.Sending? && s.loop.pending != [] && s.io.Pc(0).Idle? && OutFits(cfg, s.loop.pending[0])
    case Return => ((s.loop.Sending? && s.loop.pending == []) || s.loop.Failing?) && s.io.Pc(0).Idle?
    case Emit(w, n) => w > 0 && s.io.Pc(w).Idle? && OutFits(cfg, Notif(n))
    case Write(step) =>
      && (step.Acquire? || step.WriteBody? || step.WriteNewline? || step.Release?)
      && Enabled(cfg.codec, s.io, step)
  }

  /** ReadRequest and the start of a turn of the loop: one line of the input. */
  function DoLoopRead(cfg: Config, s: Sys): Sys
    requires s.io.Pc(0).Idle?
  {
    match ScanLine(cfg.extLimit, s.input)
    case End => s.(loop := Stopped)
    case TooLong(_) => BeginParseError(cfg, s, "read: " + TOO_LONG)
    case Line(text, rest) =>
      if text == [] then s.(input := rest)
      else match cfg.codec.decodeRequest(text)
           case Err(reason) => BeginParseError(cfg, s.(input := rest), "unmarshal request: " + reason)
           case Ok(req) =>
             var s' := s.(input := rest, queue := if s.queue == [] then [] else s.queue[1..]);
             if s.cancelled then s'.(loop := Stopped, lost := true, dropped := s.dropped + [req])
             else s'.(loop := Handling(req))
  }

  function BeginParseError(cfg: Config, s: Sys, reason: string): Sys
    requires s.io.Pc(0).Idle?
  {
    s.(loop := Failing, io := Apply(cfg.codec, s.io, Begin(0, Resp(ParseErrorResponse(reason)))))
  }

  /** The handlers of a request run: what they emit is to be sent, and then the response, if any. */
  function DoServe(cfg: Config, s: Sys): Sys
    requires s.loop.Handling?
  {
    var req := s.loop.req;
    var h := Handle(cfg.ext, cfg.codec, |s.handled|, req);
    s.(handled := s.handled + [req], loop := Sending(req, Written(cfg.ext, |s.handled|, h)),
       lost := s.lost || h.response == None)
  }

  function DoSend(cfg: Config, s: Sys): Sys
    requires s.loop.Sending? && s.loop.pending != [] && s.io.Pc(0).Idle?
  {
    s.(loop := Sending(s.loop.req, s.loop.pending[1..]),
       io := Apply(cfg.codec, s.io, Begin(0, s.loop.pending[0])))
  }

  /** readMessage and one turn of the loop that awaits a response: one line of the output. */
  function DoHostRead(cfg: Config, s: Sys): Sys
    requires s.host.Awaiting?
  {
    match ScanLine(cfg.hostLimit, Unread(s))
    case End => s.(host := Stuck)
    case TooLong(_) => s.(host := Stuck)
    case Line(text, rest) =>
      var s' := s.(consumed := s.consumed + |Unread(s)| - |rest|);
      if text == [] then s'
      else match cfg.codec.Classify(text)
           case Err(_) => s'.(host := Stuck)
           case Ok(Notif(n)) =>
             s'.(stored := StoreOne(s.stored, n), seen := s.seen + 1)
           case Ok(Resp(r)) =>
             s'.(host := if r.id == s.host.id then HostIdle else Stuck, seen := s.seen + 1)
  }

  /**
   What can be done where the pipes are io.Pipe: a write is taken only by a reader that waits for
   more, which is a host that awaits a response, or a loop that reads, with no whole line to go on.
   */
  predicate Unblocked(cfg: Config, s: Sys, a: Action) {
    && CanDo(cfg, s, a)
    && (a.HostCall? ==> s.loop.Reading? && LF !in s.input)
    && (a.Write? && (a.step.WriteBody? || a.step.WriteNewline?) ==> s.host.Awaiting? && LF !in Unread(s))
  }

  function Do(cfg: Config, s: Sys, a: Action): Sys
    requires CanDo(cfg, s, a)
  {
    match a
    case HostCall(name, params) =>
      var req := NextCall(s, name, params);
      s.(nextID := req.id, host := Awaiting(req.id), input := s.input + cfg.codec.encodeRequest(req) + [LF],
         queue := s.queue + [req], sent := s.sent + [req])
    case HostRead => DoHostRead(cfg, s)
    case Drain(name) =>
      s.(drained := s.drained[name := Get(s.drained, name) + Get(s.stored, name)], stored := s.stored - {name})
    case Close => s.(closed := true)
    case Cancel => s.(cancelled := true)
    case LoopRead => DoLoopRead(cfg, s)
    case Serve => DoServe(cfg, s)
    case Send => DoSend(cfg, s)
    case Return => s.(loop := if s.loop.Failing? || IsShutdown(s.loop.req) then Stopped else Reading)
    case Emit(w, n) => s.(io := Apply(cfg.codec, s.io, Begin(w, Notif(n))))
    case Write(step) => s.(io := Apply(cfg.codec, s.io, step))
  }

  /** The state after a run, if every action of it can be done. */
  function Reach(cfg: Config, run: seq<Action>): Option<Sys> {
    if run == [] then Some(INITIAL)
    else
      match Reach(cfg, run[..|run| - 1])
      case None => None
      case Some(s) =>
        var a := run[|run| - 1];
        if CanDo(cfg, s, a) then Some(Do(cfg, s, a)) else None
  }
}
