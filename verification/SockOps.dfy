/** The sock_ops program of pkg/ebpf/bpf/src/sockops.go on the map and the
    sockets it drives. One kernel event runs the program once. */
module SockOps {
  import opened Bytes

  /** A word of callback flags, as the set of its one bits. */
  type CbFlags = set<nat>

  const WRITE_HDR_OPT_CB_FLAG: CbFlags := {6}
  const DEFAULT_MSS: nat := 1460

  type Cookie = nat

  /** A 32-bit word in network order, as its octets lie in memory. */
  datatype Wire32 = Wire32(a: byte, b: byte, c: byte, d: byte)

  datatype Config = Config(mss: u16, restoreMSS: u16, restoreAfterBytes: u32, enabled: byte)
  {
    function NormalMSS(): nat { if restoreMSS != 0 then restoreMSS else DEFAULT_MSS }
  }

  datatype ConnState = ConnState(bytesSent: u32, mssRestored: byte)

  datatype ConnEvent = ConnEvent(srcIP: u32, dstIP: u32, srcPort: u16, dstPort: u16, seqNo: u32, ackNo: u32)

  /** A TCP_MAXSEG value set on a socket, and how many segments the program
      had been shown by then. */
  datatype MSSChange = MSSChange(value: nat, after: nat)

  /** The kernel's socket. `heard` says its established event reached the
      enabled program, `segments` are the segments it was shown since. */
  datatype Socket = Socket(
    remoteIp4: u32, remotePort: Wire32, initialFlags: CbFlags, cbFlags: CbFlags,
    log: seq<MSSChange>, heard: bool, segments: seq<u32>)

  datatype Op = ActiveEstablishedCb | HdrOptLenCb | WriteHdrOptCb | OtherOp

  datatype Context = Context(
    op: Op, cookie: Cookie, localIp4: u32, localPort: u32, sndNxt: u32, rcvNxt: u32, skbLen: u32)

  /** Network to host order of a 32-bit word. */
  function Ntohl(v: Wire32): u32 { U32(v.a, v.b, v.c, v.d) }

  /** The port is the last two octets of the word. */
  function DstPort(s: Socket): u16 { U16(s.remotePort.c, s.remotePort.d) }

  lemma PortIsLowHalf(v: Wire32)
    ensures ToU16(Ntohl(v)) == U16(v.c, v.d)
  {
  }

  datatype World = World(
    config: Config, targetPorts: set<u16>, excludeIps: set<u32>,
    connections: map<Cookie, ConnState>, sockets: map<Cookie, Socket>, events: seq<ConnEvent>)
  {
    predicate Matches(s: Socket) { s.remoteIp4 !in excludeIps && DstPort(s) in targetPorts }

    function WithMSS(c: Cookie, value: nat): World
      requires c in sockets
    {
      var s := sockets[c];
      this.(sockets := sockets[c := s.(log := s.log + [MSSChange(value, |s.segments|)])])
    }

    function WithFlags(c: Cookie, flags: CbFlags): World
      requires c in sockets
    {
      this.(sockets := sockets[c := sockets[c].(cbFlags := flags)])
    }
  }

  function Established(w: World, ctx: Context): World
    requires ctx.cookie in w.sockets
  {
    var s := w.sockets[ctx.cookie];
    if !w.Matches(s) then w
    else
      var event := ConnEvent(ctx.localIp4, s.remoteIp4, ToU16(ctx.localPort), DstPort(s), ctx.sndNxt, ctx.rcvNxt);
      w.WithMSS(ctx.cookie, w.config.mss)
      .(events := w.events + [event], connections := w.connections[ctx.cookie := ConnState(0, 0)])
      .WithFlags(ctx.cookie, s.cbFlags + WRITE_HDR_OPT_CB_FLAG)
  }

  function WriteHdrOpt(w: World, ctx: Context): World
    requires ctx.cookie in w.sockets
  {
    if ctx.cookie !in w.connections || w.connections[ctx.cookie].mssRestored != 0 then w
    else
      var sent := ToU32(w.connections[ctx.cookie].bytesSent + ctx.skbLen);
      if sent > w.config.restoreAfterBytes then
        w.WithMSS(ctx.cookie, w.config.NormalMSS())
        .WithFlags(ctx.cookie, w.sockets[ctx.cookie].cbFlags - WRITE_HDR_OPT_CB_FLAG)
        .(connections := w.connections - {ctx.cookie})
      else w.(connections := w.connections[ctx.cookie := w.connections[ctx.cookie].(bytesSent := sent)])
  }

  function Program(w: World, ctx: Context): World
    requires ctx.cookie in w.sockets
  {
    if w.config.enabled == 0 then w
    else match ctx.op
      case ActiveEstablishedCb => Established(w, ctx)
      case WriteHdrOptCb => WriteHdrOpt(w, ctx)
      case HdrOptLenCb => w
      case OtherOp => w
  }

  // ----- the code -----

  class Kernel {
    var config: Config
    var targetPorts: set<u16>
    var excludeIps: set<u32>
    var connections: map<Cookie, ConnState>
    var sockets: map<Cookie, Socket>
    var events: seq<ConnEvent>

    function View(): World
      reads this
    {
      World(config, targetPorts, excludeIps, connections, sockets, events)
    }

    method Setsockopt(c: Cookie, value: nat)
      requires c in sockets
      modifies this`sockets
      ensures View() == old(View()).WithMSS(c, value)
    {
      var s := sockets[c];
      sockets := sockets[c := s.(log := s.log + [MSSChange(value, |s.segments|)])];
    }

    method SockOpsCbFlagsSet(c: Cookie, flags: CbFlags)
      requires c in sockets
      modifies this`sockets
      ensures View() == old(View()).WithFlags(c, flags)
    {
      sockets := sockets[c := sockets[c].(cbFlags := flags)];
    }

    method HandleEstablished(ctx: Context)
      requires ctx.cookie in sockets
      modifies this
      ensures View() == Established(old(View()), ctx)
    {
      var s := sockets[ctx.cookie];
      if s.remoteIp4 in excludeIps {
        return;
      }
      PortIsLowHalf(s.remotePort);
      var dstPort := ToU16(Ntohl(s.remotePort));
      if dstPort !in targetPorts {
        return;
      }
      Setsockopt(ctx.cookie, config.mss);
      var event := ConnEvent(ctx.localIp4, s.remoteIp4, ToU16(ctx.localPort), dstPort, ctx.sndNxt, ctx.rcvNxt);
      events := events + [event];
      var state := ConnState(0, 0);
      connections := connections[ctx.cookie := state];
      var flags := s.cbFlags + WRITE_HDR_OPT_CB_FLAG;
      SockOpsCbFlagsSet(ctx.cookie, flags);
    }

    method HandleWriteHdrOpt(ctx: Context)
      requires ctx.cookie in sockets
      modifies this
      ensures View() == WriteHdrOpt(old(View()), ctx)
    {
      if ctx.cookie !in connections {
        return;
      }
      if connections[ctx.cookie].mssRestored != 0 {
        return;
      }
      var flags := sockets[ctx.cookie].cbFlags - WRITE_HDR_OPT_CB_FLAG;
      var sent := ToU32(connections[ctx.cookie].bytesSent + ctx.skbLen);
      connections := connections[ctx.cookie := connections[ctx.cookie].(bytesSent := sent)];
      if connections[ctx.cookie].bytesSent > config.restoreAfterBytes {
        var normalMSS := 1460;
        if config.restoreMSS != 0 {
          normalMSS := config.restoreMSS;
        }
        Setsockopt(ctx.cookie, normalMSS);
        connections := connections[ctx.cookie := connections[ctx.cookie].(mssRestored := 1)];
        SockOpsCbFlagsSet(ctx.cookie, flags);
        connections := connections - {ctx.cookie};
        assert connections == old(connections) - {ctx.cookie};
      }
    }

    method GecitSockops(ctx: Context)
      requires ctx.cookie in sockets
      modifies this
      ensures View() == Program(old(View()), ctx)
    {
      if config.enabled == 0 {
        return;
      }
      if ctx.op == ActiveEstablishedCb {
        HandleEstablished(ctx);
        return;
      }
      if ctx.op == WriteHdrOptCb {
        HandleWriteHdrOpt(ctx);
        return;
      }
    }
  }

  // ----- whole runs -----

  /** What can happen around the program: a socket is established, a segment
      is about to leave, an options length is asked for, the LRU map drops an
      entry, the master switch is flipped. */
  datatype Event =
    | Connect(ctx: Context, remoteIp4: u32, remotePort: Wire32, flags: CbFlags)
    | Segment(cookie: Cookie, skbLen: u32)
    | HdrOptLen(cookie: Cookie)
    | Evict(cookie: Cookie)
    | SetEnabled(enabled: byte)

  function Quiet(op: Op, c: Cookie, skbLen: u32): Context { Context(op, c, 0, 0, 0, 0, skbLen) }

  /** Cookies are unique, so established fires once per socket. */
  predicate Possible(w: World, ev: Event) {
    match ev
    case Connect(ctx, _, _, _) => ctx.cookie !in w.sockets
    case Segment(c, _) => c in w.sockets
    case HdrOptLen(c) => c in w.sockets
    case Evict(_) => true
    case SetEnabled(_) => true
  }

  /** The socket a Connect establishes, before the program runs. */
  function NewSocket(w: World, ev: Event): Socket
    requires ev.Connect?
  {
    Socket(ev.remoteIp4, ev.remotePort, ev.flags, ev.flags, [], w.config.enabled != 0, [])
  }

  function Step(w: World, ev: Event): World
    requires Possible(w, ev)
  {
    match ev
    case Connect(ctx, _, _, _) =>
      var s := NewSocket(w, ev);
      Program(w.(sockets := w.sockets[ctx.cookie := s]), ctx.(op := ActiveEstablishedCb))
    case Segment(c, skbLen) =>
      var s := w.sockets[c];
      var shown := if w.config.enabled != 0 then s.(segments := s.segments + [skbLen]) else s;
      Program(w.(sockets := w.sockets[c := shown]), Quiet(WriteHdrOptCb, c, skbLen))
    case HdrOptLen(c) => Program(w, Quiet(HdrOptLenCb, c, 0))
    case Evict(c) => w.(connections := w.connections - {c})
    case SetEnabled(e) => w.(config := w.config.(enabled := e))
  }

  predicate Initial(w: World) { w.connections == map[] && w.sockets == map[] }

  /** `w` is reached from `w0` by `evs`. */
  predicate Reaches(w0: World, evs: seq<Event>, w: World)
    decreases |evs|
  {
    if evs == [] then w == w0
    else Possible(w0, evs[0]) && Reaches(Step(w0, evs[0]), evs[1..], w)
  }

  // ----- what the map says about the sockets -----

  function Clamp(w: World): seq<MSSChange> { [MSSChange(w.config.mss, 0)] }

  /** An entry is an unrestored socket below its threshold: it matches, it is
      clamped, and its write-header callback is on. */
  predicate EntryOk(w: World, c: Cookie)
    requires c in w.connections
  {
    && c in w.sockets
    && w.connections[c].mssRestored == 0
    && w.connections[c].bytesSent <= w.config.restoreAfterBytes
    && var s := w.sockets[c];
       w.Matches(s) && s.log == Clamp(w) && WRITE_HDR_OPT_CB_FLAG <= s.cbFlags
  }

  /** No callback flag but write-header is ever altered. */
  predicate OtherFlagsKept(s: Socket) {
    s.cbFlags - WRITE_HDR_OPT_CB_FLAG == s.initialFlags - WRITE_HDR_OPT_CB_FLAG
  }

  /** A socket is untouched, or clamped once, or clamped once and then
      restored once, and its flag follows. */
  predicate SocketOk(w: World, s: Socket) {
    && OtherFlagsKept(s)
    && (s.log == [] ==> s.cbFlags == s.initialFlags)
    && (|s.log| == 1 ==> WRITE_HDR_OPT_CB_FLAG <= s.cbFlags)
    && (s.log == [] || s.log == Clamp(w)
        || (|s.log| == 2 && s.log[0] == Clamp(w)[0] && s.log[1].value == w.config.NormalMSS()
            && WRITE_HDR_OPT_CB_FLAG !! s.cbFlags))
    && (s.log != [] <==> s.heard && w.Matches(s))
  }

  predicate Consistent(w: World) {
    && (forall c <- w.connections :: EntryOk(w, c))
    && (forall c <- w.sockets :: SocketOk(w, w.sockets[c]))
  }

  lemma StepKeepsOthers(w: World, ev: Event, c: Cookie)
    requires Possible(w, ev)
    requires match ev case Connect(ctx, _, _, _) => c != ctx.cookie case Segment(d, _) => c != d
                      case HdrOptLen(d) => c != d case Evict(d) => c != d case SetEnabled(_) => true
    ensures var w' := Step(w, ev);
            && (c in w'.sockets <==> c in w.sockets)
            && (c in w.sockets ==> w'.sockets[c] == w.sockets[c])
            && (c in w'.connections <==> c in w.connections)
            && (c in w.connections ==> w'.connections[c] == w.connections[c])
  {
  }

  predicate SameSettings(w: World, w': World) {
    && w'.config.(enabled := 0) == w.config.(enabled := 0)
    && w'.targetPorts == w.targetPorts && w'.excludeIps == w.excludeIps
  }

  lemma StepKeepsSettings(w: World, ev: Event)
    requires Possible(w, ev)
    ensures SameSettings(w, Step(w, ev))
  {
  }

  /** The cookie an event is about. */
  function Subject(ev: Event): Option<Cookie> {
    match ev
    case Connect(ctx, _, _, _) => Some(ctx.cookie)
    case Segment(c, _) => Some(c)
    case HdrOptLen(c) => Some(c)
    case Evict(c) => Some(c)
    case SetEnabled(_) => None
  }

  lemma ConnectIsConsistent(w: World, ev: Event)
    requires ev.Connect? && Possible(w, ev)
    ensures var w', c := Step(w, ev), ev.ctx.cookie;
            && (c in w'.connections ==> c in w.connections || EntryOk(w', c))
            && c in w'.sockets && SocketOk(w', w'.sockets[c])
  {
  }

  lemma SegmentIsConsistent(w: World, c: Cookie, skbLen: u32)
    requires c in w.sockets && SocketOk(w, w.sockets[c]) && (c in w.connections ==> EntryOk(w, c))
    ensures var w' := Step(w, Segment(c, skbLen));
            && (c in w'.connections ==> EntryOk(w', c))
            && c in w'.sockets && SocketOk(w', w'.sockets[c])
  {
  }

  lemma SubjectStaysConsistent(w: World, ev: Event)
    requires Possible(w, ev) && Consistent(w) && Subject(ev).Some?
    ensures var w', c := Step(w, ev), Subject(ev).value;
            && (c in w'.connections ==> EntryOk(w', c))
            && (c in w'.sockets ==> SocketOk(w', w'.sockets[c]))
  {
    var c := Subject(ev).value;
    if c in w.connections { assert EntryOk(w, c); }
    match ev
    case Connect(_, _, _, _) => ConnectIsConsistent(w, ev);
    case Segment(_, skbLen) => SegmentIsConsistent(w, c, skbLen);
    case HdrOptLen(_) =>
    case Evict(_) =>
  }

  /** Every event keeps the map and the sockets consistent, evictions and
      flips of the switch included. */
  lemma StepIsConsistent(w: World, ev: Event)
    requires Possible(w, ev) && Consistent(w)
    ensures Consistent(Step(w, ev))
  {
    var w' := Step(w, ev);
    StepKeepsSettings(w, ev);
    if Subject(ev).Some? { SubjectStaysConsistent(w, ev); }
    forall c | c in w'.connections ensures EntryOk(w', c) {
      if Some(c) != Subject(ev) { StepKeepsOthers(w, ev, c); assert EntryOk(w, c); }
    }
    forall c | c in w'.sockets ensures SocketOk(w', w'.sockets[c]) {
      if Some(c) != Subject(ev) { StepKeepsOthers(w, ev, c); assert SocketOk(w, w.sockets[c]); }
    }
  }

  lemma {:induction false} RunIsConsistent(w0: World, evs: seq<Event>, w: World)
    requires Consistent(w0) && Reaches(w0, evs, w)
    ensures Consistent(w)
    decreases |evs|
  {
    if evs != [] {
      StepIsConsistent(w0, evs[0]);
      RunIsConsistent(Step(w0, evs[0]), evs[1..], w);
    }
  }

  /** From an empty start, in every reachable state. In particular no stored
      entry is ever marked restored, so the test for one never succeeds. */
  lemma ReachableIsConsistent(w0: World, evs: seq<Event>, w: World)
    requires Initial(w0) && Reaches(w0, evs, w)
    ensures Consistent(w)
  {
    RunIsConsistent(w0, evs, w);
  }

  /** Every socket of every reachable state, told by its own addresses, the
      two maps and the configuration alone. It was touched exactly when the
      enabled program heard of it, its address is not excluded and its port is
      targeted. It was then set to the configured MSS once, and after that at
      most once more, to the restore MSS or 1460. Write-header is the only
      callback flag that moves: on with the first change, off with the second. */
  lemma TouchedExactly(w0: World, evs: seq<Event>, w: World, c: Cookie)
    requires Initial(w0) && Reaches(w0, evs, w) && c in w.sockets
    ensures var s, cfg := w.sockets[c], w.config;
            && (s.log != [] <==>
                s.heard && s.remoteIp4 !in w.excludeIps && U16(s.remotePort.c, s.remotePort.d) in w.targetPorts)
            && |s.log| <= 2
            && (s.log != [] ==> s.log[0] == MSSChange(cfg.mss, 0))
            && (|s.log| == 2 ==> s.log[1].value == if cfg.restoreMSS != 0 then cfg.restoreMSS else 1460)
            && s.cbFlags == if s.log == [] then s.initialFlags
                            else if |s.log| == 1 then s.initialFlags + {6}
                            else s.initialFlags - {6}
  {
    ReachableIsConsistent(w0, evs, w);
    var s := w.sockets[c];
    assert SocketOk(w, s);
    FlagMoves(s.initialFlags, s.cbFlags);
  }

  lemma FlagMoves(a: CbFlags, b: CbFlags)
    requires a - {6} == b - {6}
    ensures b == if 6 in b then a + {6} else a - {6}
  {
    assert forall x :: x != 6 ==> (x in a <==> x in a - {6}) && (x in b <==> x in b - {6});
  }

  // ----- when the MSS comes back -----

  function Total(segments: seq<u32>): nat {
    if segments == [] then 0 else Total(segments[..|segments| - 1]) + segments[|segments| - 1]
  }

  /** Segment number `k` is the first to bring the sum over the threshold. */
  predicate CrossesAt(segments: seq<u32>, k: nat, threshold: u32) {
    0 < k <= |segments| && Total(segments[..k - 1]) <= threshold < Total(segments[..k])
  }

  /** The threshold test reads the wrapped counter; it is right about the true
      sum exactly when the counter did not wrap. */
  lemma WrappedTestIsRight(sent: u32, skbLen: u32, threshold: u32)
    requires sent <= threshold
    ensures (ToU32(sent + skbLen) > threshold <==> sent + skbLen > threshold) <==>
            sent + skbLen < 0x1_0000_0000
  {
  }

  /** The whole history of a socket, as the program means it to be. */
  predicate Followed(w: World, c: Cookie)
    requires c in w.sockets
  {
    var s, cfg := w.sockets[c], w.config;
    var limit := cfg.restoreAfterBytes;
    if !s.heard || s.remoteIp4 in w.excludeIps || U16(s.remotePort.c, s.remotePort.d) !in w.targetPorts then
      s.log == [] && c !in w.connections
    else if Total(s.segments) <= limit then
      && s.log == [MSSChange(cfg.mss, 0)]
      && c in w.connections && w.connections[c] == ConnState(Total(s.segments), 0)
    else
      && c !in w.connections && |s.log| == 2 && s.log[0] == MSSChange(cfg.mss, 0)
      && s.log[1].value == (if cfg.restoreMSS != 0 then cfg.restoreMSS else 1460)
      && CrossesAt(s.segments, s.log[1].after, limit)
  }

  /** The two ways the program loses sight of a clamped socket: the LRU map
      drops its entry, or a segment wraps its counter. */
  predicate Lost(w: World, ev: Event, c: Cookie) {
    && c in w.connections
    && (ev == Evict(c)
        || (w.config.enabled != 0 && ev.Segment? && ev.cookie == c
            && w.connections[c].bytesSent + ev.skbLen >= 0x1_0000_0000))
  }

  /** No event of the run loses `c`; what befalls other sockets is free. */
  predicate Undisturbed(w0: World, evs: seq<Event>, c: Cookie)
    decreases |evs|
  {
    evs == [] || (Possible(w0, evs[0]) && !Lost(w0, evs[0], c) && Undisturbed(Step(w0, evs[0]), evs[1..], c))
  }

  /** What becomes of a socket once lost: clamped for good, or still clamped
      past the threshold, or restored at a segment that is not the first past
      it. */
  predicate Broken(w: World, c: Cookie)
    requires c in w.sockets
  {
    var s, limit := w.sockets[c], w.config.restoreAfterBytes;
    || (c !in w.connections && s.log == Clamp(w))
    || (c in w.connections && s.log == Clamp(w) && Total(s.segments) > limit)
    || (c !in w.connections && |s.log| == 2 && s.log[1].after <= |s.segments|
        && !CrossesAt(s.segments, s.log[1].after, limit))
  }

  lemma BrokenIsNotFollowed(w: World, c: Cookie)
    requires c in w.sockets && Broken(w, c)
    ensures !Followed(w, c)
  {
  }

  lemma NextSegment(segments: seq<u32>, x: u32, threshold: u32)
    ensures Total(segments + [x]) == Total(segments) + x
    ensures forall k: nat | k <= |segments| ::
              CrossesAt(segments + [x], k, threshold) <==> CrossesAt(segments, k, threshold)
    ensures CrossesAt(segments + [x], |segments| + 1, threshold) <==>
            Total(segments) <= threshold < Total(segments) + x
  {
    var more := segments + [x];
    assert more[..|segments|] == segments && more[..|segments| + 1] == more;
    forall k: nat | k <= |segments| ensures CrossesAt(more, k, threshold) <==> CrossesAt(segments, k, threshold) {
      if k > 0 { assert more[..k] == segments[..k] && more[..k - 1] == segments[..k - 1]; }
    }
  }

  /** The write-header handler on a tracked socket. */
  lemma SegmentWithEntry(w: World, c: Cookie, skbLen: u32, sum: u32)
    requires c in w.sockets && c in w.connections && w.connections[c].mssRestored == 0
    requires w.sockets[c].log == Clamp(w) && ToU32(w.connections[c].bytesSent + skbLen) == sum
    ensures var w', s := WriteHdrOpt(w, Quiet(WriteHdrOptCb, c, skbLen)), w.sockets[c];
            && c in w'.sockets && w'.sockets[c].segments == s.segments
            && if sum > w.config.restoreAfterBytes then
                 && c !in w'.connections
                 && w'.sockets[c].log == Clamp(w) + [MSSChange(w.config.NormalMSS(), |s.segments|)]
               else
                 w'.sockets[c].log == Clamp(w) && c in w'.connections && w'.connections[c] == ConnState(sum, 0)
  {
  }

  /** A segment of a tracked socket: shown, and counted modulo 2^32. */
  predicate Counted(w: World, w': World, c: Cookie, skbLen: u32)
    requires c in w.sockets && c in w.connections
  {
    var s, sum := w.sockets[c], ToU32(w.connections[c].bytesSent + skbLen);
    && SameSettings(w, w') && c in w'.sockets
    && var s' := w'.sockets[c];
       && s'.segments == s.segments + [skbLen] && s'.heard == s.heard
       && s'.remoteIp4 == s.remoteIp4 && s'.remotePort == s.remotePort
       && if sum > w.config.restoreAfterBytes then
            c !in w'.connections && s'.log == Clamp(w) + [MSSChange(w.config.NormalMSS(), |s.segments| + 1)]
          else
            s'.log == Clamp(w) && c in w'.connections && w'.connections[c] == ConnState(sum, 0)
  }

  lemma SegmentIsCounted(w: World, c: Cookie, skbLen: u32)
    requires c in w.sockets && c in w.connections && EntryOk(w, c) && w.config.enabled != 0
    ensures Counted(w, Step(w, Segment(c, skbLen)), c, skbLen)
  {
    var s := w.sockets[c];
    var w1 := w.(sockets := w.sockets[c := s.(segments := s.segments + [skbLen])]);
    SegmentWithEntry(w1, c, skbLen, ToU32(w.connections[c].bytesSent + skbLen));
  }

  /** A segment of a socket without an entry: shown, and no more. */
  predicate Shown(w: World, w': World, c: Cookie, skbLen: u32)
    requires c in w.sockets
  {
    && SameSettings(w, w') && w'.connections == w.connections && c in w'.sockets
    && w'.sockets[c] == w.sockets[c].(segments := w.sockets[c].segments + [skbLen])
  }

  lemma SegmentIsShown(w: World, c: Cookie, skbLen: u32)
    requires c in w.sockets && c !in w.connections && w.config.enabled != 0
    ensures Shown(w, Step(w, Segment(c, skbLen)), c, skbLen)
  {
  }

  lemma CountedFollows(w: World, w': World, c: Cookie, skbLen: u32)
    requires c in w.sockets && c in w.connections && Followed(w, c) && Counted(w, w', c, skbLen)
    ensures if w.connections[c].bytesSent + skbLen >= 0x1_0000_0000 then Broken(w', c) else Followed(w', c)
  {
    NextSegment(w.sockets[c].segments, skbLen, w.config.restoreAfterBytes);
    WrappedTestIsRight(w.connections[c].bytesSent, skbLen, w.config.restoreAfterBytes);
  }

  lemma CountedStaysBroken(w: World, w': World, c: Cookie, skbLen: u32)
    requires c in w.sockets && c in w.connections && Broken(w, c) && Counted(w, w', c, skbLen)
    ensures Broken(w', c)
  {
    NextSegment(w.sockets[c].segments, skbLen, w.config.restoreAfterBytes);
  }

  lemma ShownFollows(w: World, w': World, c: Cookie, skbLen: u32)
    requires c in w.sockets && c !in w.connections && Followed(w, c) && Shown(w, w', c, skbLen)
    ensures Followed(w', c)
  {
    NextSegment(w.sockets[c].segments, skbLen, w.config.restoreAfterBytes);
  }

  lemma ShownStaysBroken(w: World, w': World, c: Cookie, skbLen: u32)
    requires c in w.sockets && c !in w.connections && Broken(w, c) && Shown(w, w', c, skbLen)
    ensures Broken(w', c)
  {
    NextSegment(w.sockets[c].segments, skbLen, w.config.restoreAfterBytes);
  }

  /** A socket followed stays so unless lost, and one lost stays lost. */
  predicate Moves(w: World, w': World, ev: Event, c: Cookie)
    requires c in w.sockets && c in w'.sockets
  {
    && (Followed(w, c) ==> if Lost(w, ev, c) then Broken(w', c) else Followed(w', c))
    && (Broken(w, c) ==> Broken(w', c))
  }

  lemma CountedMoves(w: World, w': World, c: Cookie, skbLen: u32)
    requires c in w.sockets && c in w.connections && w.config.enabled != 0 && Counted(w, w', c, skbLen)
    ensures Moves(w, w', Segment(c, skbLen), c)
  {
    if Followed(w, c) { CountedFollows(w, w', c, skbLen); }
    if Broken(w, c) { CountedStaysBroken(w, w', c, skbLen); }
  }

  lemma ShownMoves(w: World, w': World, c: Cookie, skbLen: u32)
    requires c in w.sockets && c !in w.connections && Shown(w, w', c, skbLen)
    ensures Moves(w, w', Segment(c, skbLen), c)
  {
    if Followed(w, c) { ShownFollows(w, w', c, skbLen); }
    if Broken(w, c) { ShownStaysBroken(w, w', c, skbLen); }
  }

  /** One event, seen from one socket. */
  lemma StepOfSocket(w: World, ev: Event, c: Cookie)
    requires Possible(w, ev) && Consistent(w) && c in w.sockets
    ensures c in Step(w, ev).sockets
    ensures Moves(w, Step(w, ev), ev, c)
  {
    StepKeepsSettings(w, ev);
    if c in w.connections { assert EntryOk(w, c); }
    if Some(c) != Subject(ev) {
      StepKeepsOthers(w, ev, c);
    } else if ev.Segment? && w.config.enabled != 0 {
      if c in w.connections {
        SegmentIsCounted(w, c, ev.skbLen);
        CountedMoves(w, Step(w, ev), c, ev.skbLen);
      } else {
        SegmentIsShown(w, c, ev.skbLen);
        ShownMoves(w, Step(w, ev), c, ev.skbLen);
      }
    }
  }

  lemma ConnectIsFollowed(w: World, ev: Event)
    requires ev.Connect? && Possible(w, ev) && Consistent(w)
    ensures ev.ctx.cookie in Step(w, ev).sockets && Followed(Step(w, ev), ev.ctx.cookie)
  {
    assert forall c <- w.connections :: EntryOk(w, c);
    assert Total([]) == 0;
  }

  lemma {:induction false} SocketHistory(w0: World, evs: seq<Event>, w: World, c: Cookie)
    requires Consistent(w0) && Reaches(w0, evs, w) && c in w.sockets
    requires c in w0.sockets ==> Followed(w0, c) || Broken(w0, c)
    ensures if c in w0.sockets && Broken(w0, c) then Broken(w, c)
            else if Undisturbed(w0, evs, c) then Followed(w, c)
            else Broken(w, c)
    decreases |evs|
  {
    if c in w0.sockets && Broken(w0, c) { BrokenIsNotFollowed(w0, c); }
    if evs != [] {
      var w1 := Step(w0, evs[0]);
      StepIsConsistent(w0, evs[0]);
      if c in w0.sockets {
        StepOfSocket(w0, evs[0], c);
      } else if evs[0].Connect? && evs[0].ctx.cookie == c {
        ConnectIsFollowed(w0, evs[0]);
      } else {
        AbsentStaysAbsent(w0, evs[0], c);
      }
      if c in w1.sockets && Broken(w1, c) { BrokenIsNotFollowed(w1, c); }
      SocketHistory(w1, evs[1..], w, c);
    }
  }

  lemma AbsentStaysAbsent(w: World, ev: Event, c: Cookie)
    requires Possible(w, ev) && c !in w.sockets && !(ev.Connect? && ev.ctx.cookie == c)
    ensures c !in Step(w, ev).sockets
  {
    if Some(c) != Subject(ev) { StepKeepsOthers(w, ev, c); }
  }

  /** Over every run, socket by socket: a matching socket heard while enabled
      is clamped once, and restored once, at the first segment that brings the
      sum of the segments it was shown over the threshold, its stored counter
      being that sum until then, exactly when no event of the run evicted its
      entry or wrapped its counter. */
  lemma ClampedOnceRestoredOnce(w0: World, evs: seq<Event>, w: World, c: Cookie)
    requires Initial(w0) && Reaches(w0, evs, w) && c in w.sockets
    ensures Followed(w, c) <==> Undisturbed(w0, evs, c)
  {
    SocketHistory(w0, evs, w, c);
    if Broken(w, c) { BrokenIsNotFollowed(w, c); }
  }

  lemma CrossingIsTight(segments: seq<u32>, k: nat, threshold: u32)
    requires CrossesAt(segments, k, threshold)
    ensures Total(segments[..k]) <= threshold + segments[k - 1]
  {
    assert segments[..k][..k - 1] == segments[..k - 1];
  }

  /** An undisturbed socket sends at most the threshold and its last segment
      while it is clamped. */
  lemma ClampedOctets(w0: World, evs: seq<Event>, w: World, c: Cookie)
    requires Initial(w0) && Reaches(w0, evs, w) && c in w.sockets && Undisturbed(w0, evs, c)
    ensures var s, limit := w.sockets[c], w.config.restoreAfterBytes;
            && (|s.log| == 1 ==> Total(s.segments) <= limit)
            && (|s.log| > 1 ==> var k := s.log[1].after;
                  0 < k <= |s.segments| && Total(s.segments[..k]) <= limit + s.segments[k - 1])
  {
    ClampedOnceRestoredOnce(w0, evs, w, c);
    var s := w.sockets[c];
    if |s.log| > 1 { CrossingIsTight(s.segments, s.log[1].after, w.config.restoreAfterBytes); }
  }

  /** The loss is real: in every enabled world, a matching socket whose entry
      is evicted sends any segment past the threshold and stays clamped. */
  lemma EvictedStaysClamped(w0: World, connect: Event, skbLen: u32) returns (w: World)
    requires Initial(w0) && w0.config.enabled != 0 && skbLen > w0.config.restoreAfterBytes
    requires connect.Connect? && w0.Matches(NewSocket(w0, connect))
    ensures var c := connect.ctx.cookie;
            && Reaches(w0, [connect, Evict(c), Segment(c, skbLen)], w)
            && c in w.sockets && w.sockets[c].log == Clamp(w)
            && Total(w.sockets[c].segments) > w.config.restoreAfterBytes && !Followed(w, c)
  {
    var c := connect.ctx.cookie;
    var w1 := Step(w0, connect);
    ConnectTracks(w0, connect);
    var w2 := Step(w1, Evict(c));
    w := Step(w2, Segment(c, skbLen));
    SegmentIsShown(w2, c, skbLen);
    NextSegment([], skbLen, w0.config.restoreAfterBytes);
    ThreeSteps(w0, connect, Evict(c), Segment(c, skbLen));
  }

  lemma ConnectTracks(w: World, ev: Event)
    requires ev.Connect? && Possible(w, ev) && w.config.enabled != 0 && w.Matches(NewSocket(w, ev))
    ensures var w', c := Step(w, ev), ev.ctx.cookie;
            && w'.config == w.config && c in w'.connections && c in w'.sockets
            && w'.sockets[c].log == Clamp(w) && w'.sockets[c].segments == []
  {
  }

  lemma ThreeSteps(w0: World, e0: Event, e1: Event, e2: Event)
    requires Possible(w0, e0) && Possible(Step(w0, e0), e1) && Possible(Step(Step(w0, e0), e1), e2)
    ensures Reaches(w0, [e0, e1, e2], Step(Step(Step(w0, e0), e1), e2))
  {
    var w := Step(Step(Step(w0, e0), e1), e2);
    assert Reaches(w, [], w);
    assert [e2][1..] == [] && [e1, e2][1..] == [e2] && [e0, e1, e2][1..] == [e1, e2];
    assert Reaches(Step(Step(w0, e0), e1), [e2], w);
    assert Reaches(Step(w0, e0), [e1, e2], w);
  }

  /** A socket that is not tracked is never touched again. */
  lemma {:induction false} UntrackedIsFinal(w0: World, evs: seq<Event>, w: World, c: Cookie)
    requires Reaches(w0, evs, w) && c in w0.sockets && c !in w0.connections
    ensures c in w.sockets && c !in w.connections
    ensures w.sockets[c].log == w0.sockets[c].log && w.sockets[c].cbFlags == w0.sockets[c].cbFlags
    decreases |evs|
  {
    if evs != [] {
      if Some(c) != Subject(evs[0]) { StepKeepsOthers(w0, evs[0], c); }
      UntrackedIsFinal(Step(w0, evs[0]), evs[1..], w, c);
    }
  }

  // ----- what is announced -----

  function Clamped(w: World): set<Cookie> {
    set c | c in w.sockets && w.sockets[c].log != []
  }

  /** What user space is due to be told of an event, and of which socket. */
  function Due(w: World, ev: Event): seq<(Cookie, ConnEvent)> {
    if ev.Connect? && w.config.enabled != 0
       && ev.remoteIp4 !in w.excludeIps && U16(ev.remotePort.c, ev.remotePort.d) in w.targetPorts then
      [(ev.ctx.cookie, ConnEvent(ev.ctx.localIp4, ev.remoteIp4, ToU16(ev.ctx.localPort),
                                 U16(ev.remotePort.c, ev.remotePort.d), ev.ctx.sndNxt, ev.ctx.rcvNxt))]
    else []
  }

  /** The same over a run: its heard, matching connects, in order. */
  function DueOver(w0: World, evs: seq<Event>): seq<(Cookie, ConnEvent)>
    decreases |evs|
  {
    if evs == [] || !Possible(w0, evs[0]) then [] else Due(w0, evs[0]) + DueOver(Step(w0, evs[0]), evs[1..])
  }

  function Events(due: seq<(Cookie, ConnEvent)>): seq<ConnEvent> { seq(|due|, i requires 0 <= i < |due| => due[i].1) }

  /** Each entry is for its own socket and names that socket's destination. */
  predicate Truthful(w: World, due: seq<(Cookie, ConnEvent)>) {
    && (forall d <- due :: d.0 in w.sockets
          && var port := w.sockets[d.0].remotePort;
             d.1.dstIP == w.sockets[d.0].remoteIp4 && d.1.dstPort == U16(port.c, port.d))
    && (forall i, j :: 0 <= i < j < |due| ==> due[i].0 != due[j].0)
  }

  function Told(due: seq<(Cookie, ConnEvent)>): set<Cookie> { set d | d in due :: d.0 }

  lemma ToldJoins(now: seq<(Cookie, ConnEvent)>, later: seq<(Cookie, ConnEvent)>)
    ensures Told(now + later) == Told(now) + Told(later)
    ensures Events(now + later) == Events(now) + Events(later)
  {
    assert Told(now + later) == Told(now) + Told(later) by {
      assert forall d <- now + later :: d in now || d in later;
      assert forall d <- now :: d in now + later;
      assert forall d <- later :: d in now + later;
    }
  }

  lemma TruthfulJoins(w: World, now: seq<(Cookie, ConnEvent)>, later: seq<(Cookie, ConnEvent)>)
    requires Truthful(w, now) && Truthful(w, later) && Told(now) !! Told(later)
    ensures Truthful(w, now + later)
  {
    var due := now + later;
    forall i, j | 0 <= i < j < |due| ensures due[i].0 != due[j].0 {
      if i < |now| <= j {
        assert due[i] in now && due[j] in later;
        assert due[i].0 in Told(now) && due[j].0 in Told(later);
      }
    }
  }

  /** Sockets stay, and keep their remote end. */
  predicate KeepsNames(w: World, w': World) {
    forall c <- w.sockets ::
      && c in w'.sockets && w'.sockets[c].remoteIp4 == w.sockets[c].remoteIp4
      && w'.sockets[c].remotePort == w.sockets[c].remotePort
  }

  lemma ConnectTells(w: World, ev: Event)
    requires Possible(w, ev) && ev.Connect?
    ensures var w', due := Step(w, ev), Due(w, ev);
            && w'.events == w.events + Events(due) && Truthful(w', due)
            && (ev.ctx.cookie in Clamped(w') <==> ev.ctx.cookie in Told(due))
  {
    if Due(w, ev) != [] { assert Due(w, ev)[0] in Due(w, ev); }
  }

  lemma OthersStayClamped(w: World, ev: Event, c: Cookie)
    requires Possible(w, ev) && (c in w.connections ==> EntryOk(w, c)) && !(ev.Connect? && ev.ctx.cookie == c)
    ensures c in Clamped(Step(w, ev)) <==> c in Clamped(w)
  {
    if Some(c) != Subject(ev) { StepKeepsOthers(w, ev, c); }
  }

  /** What a run from `w0` to `w` has added: the events due, and the sockets
      they are about. */
  predicate Announces(w0: World, w: World, due: seq<(Cookie, ConnEvent)>) {
    && w.events == w0.events + Events(due) && Truthful(w, due) && Told(due) !! w0.sockets.Keys
    && Clamped(w) == Clamped(w0) + Told(due)
  }

  lemma StepTells(w: World, ev: Event)
    requires Possible(w, ev) && Consistent(w)
    ensures Announces(w, Step(w, ev), Due(w, ev))
  {
    var w' := Step(w, ev);
    if ev.Connect? { ConnectTells(w, ev); }
    assert Told(Due(w, ev)) <= if ev.Connect? then {ev.ctx.cookie} else {};
    forall c | c !in Told(Due(w, ev)) ensures c in Clamped(w') <==> c in Clamped(w) {
      if !(ev.Connect? && ev.ctx.cookie == c) {
        if c in w.connections { assert EntryOk(w, c); }
        OthersStayClamped(w, ev, c);
      }
    }
  }

  lemma StepKeepsNames(w: World, ev: Event)
    requires Possible(w, ev)
    ensures KeepsNames(w, Step(w, ev))
  {
    forall c | c in w.sockets && Some(c) != Subject(ev) ensures Step(w, ev).sockets[c] == w.sockets[c] {
      StepKeepsOthers(w, ev, c);
    }
  }

  lemma {:induction false} RunKeepsNames(w0: World, evs: seq<Event>, w: World)
    requires Reaches(w0, evs, w)
    ensures KeepsNames(w0, w)
    decreases |evs|
  {
    if evs != [] {
      StepKeepsNames(w0, evs[0]);
      RunKeepsNames(Step(w0, evs[0]), evs[1..], w);
    }
  }

  lemma AnnouncesJoins(w0: World, w1: World, w: World, now: seq<(Cookie, ConnEvent)>, later: seq<(Cookie, ConnEvent)>)
    requires Announces(w0, w1, now) && Announces(w1, w, later)
    requires KeepsNames(w0, w1) && KeepsNames(w1, w)
    ensures Announces(w0, w, now + later)
  {
    assert forall d <- now :: d.0 in w1.sockets && d.0 in Told(now);
    assert Told(now) <= w1.sockets.Keys;
    assert Truthful(w, now);
    TruthfulJoins(w, now, later);
    ToldJoins(now, later);
  }

  lemma {:induction false} RunTells(w0: World, evs: seq<Event>, w: World)
    requires Consistent(w0) && Reaches(w0, evs, w)
    ensures Announces(w0, w, DueOver(w0, evs))
    decreases |evs|
  {
    if evs == [] {
      assert Told([]) == {};
    } else {
      var w1 := Step(w0, evs[0]);
      StepTells(w0, evs[0]);
      StepIsConsistent(w0, evs[0]);
      StepKeepsNames(w0, evs[0]);
      RunTells(w1, evs[1..], w);
      RunKeepsNames(w1, evs[1..], w);
      AnnouncesJoins(w0, w1, w, Due(w0, evs[0]), DueOver(w1, evs[1..]));
    }
  }

  /** Over every run, evictions and flips included, user space is told of the
      heard, matching connects and nothing else, in order, each event naming
      its own socket's destination; and these are the clamped sockets, each
      exactly once. */
  lemma RunAnnounces(w0: World, evs: seq<Event>, w: World)
    requires Initial(w0) && Reaches(w0, evs, w)
    ensures var due := DueOver(w0, evs);
            w.events == w0.events + Events(due) && Truthful(w, due) && Clamped(w) == Told(due)
  {
    RunTells(w0, evs, w);
  }
}
