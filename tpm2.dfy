/** The TPM2.net UDP receivers of both generations. A packet is
    `9C type size_hi size_lo number count payload… 36`; data packets are
    assembled into a frame of `height * width * 3` bytes which is handed to
    the dummy animation on the last packet of the frame. */
module Tpm2Net {
  import opened Wrappers
  import PyText

  type Byte = bv8

  const StartByte: Byte := 0x9C
  const EndByte: Byte := 0x36
  const DataFrame: Byte := 0xDA
  const Command: Byte := 0xC0
  const RequestResponse: Byte := 0xAA

  predicate IsSpace(b: Byte) {
    PyText.IsByteSpace(b as int)
  }

  /** `request[0].strip()`. */
  function Payload(request: seq<Byte>): seq<Byte> {
    PyText.Strip(request, IsSpace)
  }

  function Min(a: int, b: int): int {
    if a <= b then a else b
  }

  /** `(data[2] << 8) + data[3]`: the payload size, big-endian. */
  function FrameSize(data: seq<Byte>): (n: nat)
    requires |data| >= 4
    ensures n < 65536 && n / 256 == data[2] as int && n % 256 == data[3] as int
  {
    data[2] as int * 256 + data[3] as int
  }

  datatype Header = Header(packetType: Byte, frameSize: nat, packetNumber: nat, packets: nat)

  function HeaderOf(data: seq<Byte>): Header
    requires |data| >= 6
  {
    Header(data[1], FrameSize(data), data[4] as nat, data[5] as nat)
  }

  /** The first guard as written: `not data_length >= 8 and data[0] == 0x9c`. */
  predicate StartIgnored(data: seq<Byte>)
    requires |data| > 0
  {
    !(|data| >= 8) && data[0] == StartByte
  }

  /** The second guard as written:
      `not (data_length - 7 == frame_size) and data[-1] == 0x36`. */
  predicate EndIgnored(data: seq<Byte>)
    requires |data| >= 4
  {
    !(|data| - 7 == FrameSize(data)) && data[|data| - 1] == EndByte
  }

  /** What the protocol calls a packet: start byte, at least the header and
      the end byte, and a payload of exactly the announced size. */
  predicate WellFormed(data: seq<Byte>) {
    |data| >= 8 && data[0] == StartByte && |data| - 7 == FrameSize(data)
    && data[|data| - 1] == EndByte
  }

  /** The header checks and reads shared by both receivers: `None` when a
      guard returns early, IndexError when a read runs past the data. */
  function ReadHeader(data: seq<Byte>): (r: Result<Option<Header>>)
    ensures |data| == 0 ==> r == Err(IndexError)
    ensures r.Err? ==> r.error == IndexError && |data| < 6
    ensures 0 < |data| < 8 && data[0] == StartByte ==> r == Ok(None)
    ensures |data| >= 8 ==> (r == Ok(None) <==> EndIgnored(data))
    ensures r.Ok? && r.value.Some? ==> |data| >= 6 && r.value.value == HeaderOf(data)
    ensures WellFormed(data) ==> r == Ok(Some(HeaderOf(data)))
  {
    if |data| == 0 then Err(IndexError)
    else if StartIgnored(data) then Ok(None)
    else if |data| < 4 then Err(IndexError)
    else if EndIgnored(data) then Ok(None)
    else if |data| < 6 then Err(IndexError)
    else Ok(Some(HeaderOf(data)))
  }

  /** The header check the comments describe: a packet is read exactly when
      it is well formed, and nothing raises. */
  function CheckedHeader(data: seq<Byte>): (r: Option<Header>)
    ensures r.Some? <==> WellFormed(data)
    ensures r.Some? ==> |data| >= 8 && r.value == HeaderOf(data)
  {
    if WellFormed(data) then Some(HeaderOf(data)) else None
  }

  /** The guards' operator precedence lets through a packet whose start byte
      is wrong, and a short packet with another start byte raises instead of
      being dropped; the checked reading refuses both. */
  lemma ForeignPacketAccepted()
    ensures var d: seq<Byte> := [0x00, 0xDA, 0x00, 0x01, 0x01, 0x01, 0xAB, 0x36];
      && !WellFormed(d) && ReadHeader(d) == Ok(Some(Header(0xDA, 1, 1, 1)))
      && CheckedHeader(d) == None
    ensures var e: seq<Byte> := [0x01];
      ReadHeader(e) == Err(IndexError) && CheckedHeader(e) == None
  {
    var d: seq<Byte> := [0x00, 0xDA, 0x00, 0x01, 0x01, 0x01, 0xAB, 0x36];
    assert FrameSize(d) == 1;
  }

  /** A well-formed packet survives `strip()` unchanged and is read. */
  lemma WellFormedRead(d: seq<Byte>)
    requires WellFormed(d)
    ensures Payload(d) == d && ReadHeader(Payload(d)) == Ok(Some(HeaderOf(d)))
  {
    PyText.StripKeepsUnpadded(d, IsSpace);
  }

  /** The packet number at which a frame starts: 1, or 0 once the sender
      was seen counting from 0. */
  function FirstPacket(misbehaving: bool): nat {
    if misbehaving then 0 else 1
  }

  /** The packet number at which a frame is complete. */
  function LastPacket(misbehaving: bool, packets: nat): int {
    if misbehaving then packets - 1 else packets
  }

  // ------------------------------------------------------------ rewrite

  /** The rewrite's receiver state. `received` stands for
      `__last_received_time is not None`; `starts` counts the requests to
      start the dummy animation; `shown` is what `display_frame` received. */
  datatype Server = Server(index: nat, misbehaving: bool, dummyRunning: bool, starts: nat,
                           shown: seq<seq<Byte>>, received: bool)

  /** `np.frombuffer(data, count=count, offset=6).reshape(shape)` for a shape
      of `size` elements: ValueError when the data is too short or the
      count is not the whole shape. */
  function FromBuffer(data: seq<Byte>, count: nat, size: nat): (r: Result<seq<Byte>>)
    ensures r.Ok? <==> count == size && 6 + size <= |data|
    ensures r.Ok? ==> r.value == data[6..6 + size]
    ensures r.Err? ==> r.error == ValueError
  {
    if 6 + count > |data| then Err(ValueError)
    else if count != size then Err(ValueError)
    else Ok(data[6..6 + count])
  }

  /** A data packet in the rewrite: start the dummy (blocking), note a
      sender counting from 0, reset the index on the first packet, read the
      frame, advance the index, show the frame on the last packet. */
  function DataStep(s: Server, size: nat, data: seq<Byte>, h: Header): (Server, Result<()>) {
    var started := if s.dummyRunning then s else s.(dummyRunning := true, starts := s.starts + 1);
    var mis := s.misbehaving || h.packetNumber == 0;
    var index := if h.packetNumber == FirstPacket(mis) then 0 else s.index;
    var s1 := started.(misbehaving := mis, index := index);
    match FromBuffer(data, Min(size, index + h.frameSize), size)
    case Err(e) => (s1, Err(e))
    case Ok(frame) =>
      var shown := if h.packetNumber == LastPacket(mis, h.packets) then s.shown + [frame] else s.shown;
      (s1.(index := index + h.frameSize, shown := shown, received := true), Ok(()))
  }

  /** `process_request`: the new state and whether it raised. */
  function Process(s: Server, size: nat, request: seq<Byte>): (Server, Result<()>) {
    var data := Payload(request);
    match ReadHeader(data)
    case Err(e) => (s, Err(e))
    case Ok(None) => (s, Ok(()))
    case Ok(Some(h)) => if h.packetType == DataFrame then DataStep(s, size, data, h) else (s, Ok(()))
  }

  class Tpm2NetServer {
    /** `height * width * 3`. */
    const size: nat
    var index: nat
    var misbehaving: bool
    var dummyRunning: bool
    var starts: nat
    var shown: seq<seq<Byte>>
    var received: bool

    function State(): Server
      reads this
    {
      Server(index, misbehaving, dummyRunning, starts, shown, received)
    }

    constructor (height: nat, width: nat)
      ensures size == height * width * 3
      ensures State() == Server(0, false, false, 0, [], false)
    {
      size := height * width * 3;
      index := 0;
      misbehaving := false;
      dummyRunning := false;
      starts := 0;
      shown := [];
      received := false;
    }

    method ProcessRequest(request: seq<Byte>) returns (r: Result<()>)
      modifies this
      ensures (State(), r) == Process(old(State()), size, request)
    {
      var data := Payload(request);
      var header := ReadHeader(data);
      if header.Err? {
        return Err(header.error);
      }
      if header.value.None? || header.value.value.packetType != DataFrame {
        return Ok(());
      }
      r := TakeData(data, header.value.value);
    }

    /** The data-frame branch of `process_request`. */
    method TakeData(data: seq<Byte>, h: Header) returns (r: Result<()>)
      modifies this
      ensures (State(), r) == DataStep(old(State()), size, data, h)
    {
      if !dummyRunning {
        starts := starts + 1;
        dummyRunning := true;
      }
      if h.packetNumber == 0 {
        misbehaving := true;
      }
      if h.packetNumber == FirstPacket(misbehaving) {
        index := 0;
      }
      var frame := FromBuffer(data, Min(size, index + h.frameSize), size);
      if frame.Err? {
        return Err(frame.error);
      }
      index := index + h.frameSize;
      if h.packetNumber == LastPacket(misbehaving, h.packets) {
        shown := shown + [frame.value];
      }
      received := true;
      return Ok(());
    }

    /** `__check_for_timeout` once the timeout has elapsed since the last
        packet: the dummy is stopped and the sender is trusted again. */
    method TimedOut()
      modifies this
      ensures old(received) ==> State() == old(State()).(dummyRunning := false, received := false, misbehaving := false)
      ensures !old(received) ==> State() == old(State())
    {
      if received {
        dummyRunning := false;
        received := false;
        misbehaving := false;
      }
    }
  }

  /** Ignored packets, command and response packets and other packet types
      change nothing in either receiver. */
  lemma OnlyDataFramesAct(s: Server, l: LegacyServer, size: nat, request: seq<Byte>)
    requires |l.buffer| == size
    requires ReadHeader(Payload(request)).Ok?
    requires ReadHeader(Payload(request)).value.None?
      || ReadHeader(Payload(request)).value.value.packetType != DataFrame
    ensures Process(s, size, request) == (s, Ok(()))
    ensures LegacyHandle(l, size, request) == (l, Ok(()))
    ensures FixedHandle(l, size, request) == (l, Ok(()))
  {
  }

  /** A well-formed data packet in the rewrite, field by field: it is
      read only when it reaches the end of the frame and carries at least
      `size - 1` bytes; otherwise it raises ValueError before the index moves. */
  lemma RewriteStep(s: Server, size: nat, d: seq<Byte>)
    requires WellFormed(d) && d[1] == DataFrame
    ensures var r := Process(s, size, d);
      var h := HeaderOf(d);
      var mis := s.misbehaving || h.packetNumber == 0;
      var index := if h.packetNumber == FirstPacket(mis) then 0 else s.index;
      && r.0.misbehaving == mis && r.0.dummyRunning
      && (r.1.Ok? <==> index + h.frameSize >= size && size <= h.frameSize + 1)
      && (r.1.Ok? ==>
            r.0.index == index + h.frameSize && r.0.received
            && r.0.shown == (if h.packetNumber == LastPacket(mis, h.packets) then s.shown + [d[6..6 + size]] else s.shown))
      && (r.1.Err? ==> r.1 == Err(ValueError) && r.0.index == index && r.0.shown == s.shown)
  {
    ProcessData(s, size, d);
  }

  /** A well-formed data packet reaches the data branch of the rewrite. */
  lemma ProcessData(s: Server, size: nat, d: seq<Byte>)
    requires WellFormed(d) && d[1] == DataFrame
    ensures Process(s, size, d) == DataStep(s, size, d, HeaderOf(d))
  {
    WellFormedRead(d);
  }


  /** A sender numbering from 0 marks the rewrite misbehaving for good: the
      frame then starts at packet 0 and ends at packet `count - 1`. */
  lemma PacketZeroMisbehaves(s: Server, size: nat, d: seq<Byte>)
    requires WellFormed(d) && d[1] == DataFrame && d[4] == 0
    ensures Process(s, size, d).0.misbehaving
    ensures Process(s, size, d).0.dummyRunning
    ensures Process(s, size, d).1.Ok? <==> FrameSize(d) >= size
    ensures FrameSize(d) == size ==>
      Process(s, size, d).0.index == size
      && (Process(s, size, d).0.shown == s.shown + [d[6..|d| - 1]] <==> HeaderOf(d).packets == 1)
  {
    var h := HeaderOf(d);
    assert h.packetNumber == 0;
    RewriteStep(s, size, d);
    if FrameSize(d) == size {
      assert d[6..6 + size] == d[6..|d| - 1];
      if h.packets != 1 {
        assert |s.shown + [d[6..|d| - 1]]| != |s.shown|;
      }
    }
  }

  /** One packet carrying a whole frame is shown by the rewrite. */
  lemma SinglePacketShown(s: Server, size: nat, d: seq<Byte>)
    requires WellFormed(d) && d[1] == DataFrame && d[4] == 1 && d[5] == 1 && FrameSize(d) == size
    requires !s.misbehaving
    ensures Process(s, size, d).1 == Ok(())
    ensures Process(s, size, d).0.shown == s.shown + [d[6..6 + size]]
    ensures Process(s, size, d).0.index == size
  {
    WellFormedRead(d);
  }

  /** A frame split over two packets is never shown by the rewrite: each
      packet reads fewer bytes than the frame holds and the reshape raises
      before the index advances. */
  lemma SplitFrameRaises(s: Server, size: nat, d1: seq<Byte>, d2: seq<Byte>)
    requires WellFormed(d1) && d1[1] == DataFrame && d1[4] == 1 && d1[5] == 2
    requires WellFormed(d2) && d2[1] == DataFrame && d2[4] == 2 && d2[5] == 2
    requires 0 < FrameSize(d1) && 0 < FrameSize(d2) && FrameSize(d1) + FrameSize(d2) == size
    requires !s.misbehaving
    ensures var (s1, r1) := Process(s, size, d1);
      && r1 == Err(ValueError) && s1.index == 0 && s1.shown == s.shown
      && var (s2, r2) := Process(s1, size, d2);
      r2 == Err(ValueError) && s2.index == 0 && s2.shown == s.shown
  {
    WellFormedRead(d1);
    WellFormedRead(d2);
  }

  // ------------------------------------------------------------ legacy

  /** The legacy receiver state: as the rewrite's, plus the frame buffer the
      packets are written into, flattened (`np.put` indexes it flat). */
  datatype LegacyServer = LegacyServer(index: nat, misbehaving: bool, dummyRunning: bool, starts: nat,
                                       buffer: seq<Byte>, shown: seq<seq<Byte>>, received: bool)

  /** `np.put(buffer, arange(from, to), values)`: the positions `from` up to
      `to` take the values in turn, repeated when there are fewer; nothing
      is written when there are none. */
  function Put(buffer: seq<Byte>, from: nat, to: nat, values: seq<Byte>): (r: seq<Byte>)
    ensures |r| == |buffer|
  {
    seq(|buffer|, p requires 0 <= p < |buffer| =>
      if from <= p < to && |values| > 0 then values[(p - from) % |values|] else buffer[p])
  }

  /** Writing exactly as many values as positions puts them there in order. */
  lemma PutExact(buffer: seq<Byte>, from: nat, values: seq<Byte>)
    requires from + |values| <= |buffer|
    ensures Put(buffer, from, from + |values|, values)
      == buffer[..from] + values + buffer[from + |values|..]
  {
    var r := Put(buffer, from, from + |values|, values);
    var e := buffer[..from] + values + buffer[from + |values|..];
    assert |r| == |e|;
    forall p | 0 <= p < |r|
      ensures r[p] == e[p]
    {
      if from <= p < from + |values| {
        ModBelow(p - from, |values|);
      }
    }
  }

  lemma ModBelow(a: nat, n: nat)
    requires a < n
    ensures a % n == a
  {
  }

  /** `data[6:-1]` of a well-formed packet is its payload. */
  lemma PacketValues(d: seq<Byte>)
    requires WellFormed(d)
    ensures PyText.Slice(d, 6, -1) == d[6..|d| - 1]
    ensures |d[6..|d| - 1]| == FrameSize(d)
  {
  }

  /** A data packet written into the legacy buffer: index reset on the
      first packet, payload put at the index, index advanced, a copy of the
      buffer shown on the last packet. */
  function Store(s: LegacyServer, size: nat, data: seq<Byte>, h: Header, mis: bool): LegacyServer
    requires |s.buffer| == size
  {
    var index := if h.packetNumber == FirstPacket(mis) then 0 else s.index;
    var buffer := Put(s.buffer, index, Min(size, index + h.frameSize), PyText.Slice(data, 6, -1));
    var shown := if h.packetNumber == LastPacket(mis, h.packets) then s.shown + [buffer] else s.shown;
    s.(misbehaving := mis, index := index + h.frameSize, buffer := buffer, shown := shown)
  }

  /** A legacy data packet. As written (`fixed` false), packet 0 assigns to
      the read-only `is_misbehaving` property and raises AttributeError after
      the dummy start and the timestamp; `fixed` records the sender counting
      from 0 instead, as the comment beside the flag intends. */
  function LegacyData(s: LegacyServer, size: nat, data: seq<Byte>, h: Header, fixed: bool): (LegacyServer, Result<()>)
    requires |s.buffer| == size
  {
    var started := if s.dummyRunning then s else s.(starts := s.starts + 1);
    var timed := started.(received := true);
    if h.packetNumber == 0 && !fixed then (timed, Err(AttributeError))
    else (Store(timed, size, data, h, s.misbehaving || h.packetNumber == 0), Ok(()))
  }

  function Dispatch(s: LegacyServer, size: nat, request: seq<Byte>, fixed: bool): (LegacyServer, Result<()>)
    requires |s.buffer| == size
  {
    var data := Payload(request);
    match ReadHeader(data)
    case Err(e) => (s, Err(e))
    case Ok(None) => (s, Ok(()))
    case Ok(Some(h)) => if h.packetType == DataFrame then LegacyData(s, size, data, h, fixed) else (s, Ok(()))
  }

  /** `Tpm2NetHandler.handle` as written. */
  function LegacyHandle(s: LegacyServer, size: nat, request: seq<Byte>): (r: (LegacyServer, Result<()>))
    requires |s.buffer| == size
    ensures |r.0.buffer| == size
  {
    Dispatch(s, size, request, false)
  }

  /** `handle` with packet 0 recorded instead of raising. */
  function FixedHandle(s: LegacyServer, size: nat, request: seq<Byte>): (r: (LegacyServer, Result<()>))
    requires |s.buffer| == size
    ensures |r.0.buffer| == size
  {
    Dispatch(s, size, request, true)
  }

  /** Only packet 0 tells the two apart. */
  lemma FixedAgreesOffZero(s: LegacyServer, size: nat, d: seq<Byte>)
    requires |s.buffer| == size && WellFormed(d) && d[4] != 0
    ensures FixedHandle(s, size, d) == LegacyHandle(s, size, d)
  {
    WellFormedRead(d);
  }

  class LegacyTpm2NetServer {
    const size: nat
    var index: nat
    var misbehaving: bool
    var dummyRunning: bool
    var starts: nat
    var buffer: seq<Byte>
    var shown: seq<seq<Byte>>
    var received: bool

    predicate Valid()
      reads this
    {
      |buffer| == size
    }

    function State(): LegacyServer
      reads this
    {
      LegacyServer(index, misbehaving, dummyRunning, starts, buffer, shown, received)
    }

    /** The buffer starts black (`np.zeros`). */
    constructor (height: nat, width: nat)
      ensures Valid() && size == height * width * 3
      ensures State() == LegacyServer(0, false, false, 0, seq(height * width * 3, _ => 0), [], false)
    {
      size := height * width * 3;
      index := 0;
      misbehaving := false;
      dummyRunning := false;
      starts := 0;
      buffer := seq(height * width * 3, _ => 0);
      shown := [];
      received := false;
    }

    method Handle(request: seq<Byte>) returns (r: Result<()>)
      requires Valid()
      modifies this
      ensures Valid()
      ensures (State(), r) == LegacyHandle(old(State()), size, request)
    {
      var data := Payload(request);
      var header := ReadHeader(data);
      if header.Err? {
        return Err(header.error);
      }
      if header.value.None? || header.value.value.packetType != DataFrame {
        return Ok(());
      }
      r := TakeData(data, header.value.value);
    }

    /** The data-frame branch of `handle`. */
    method TakeData(data: seq<Byte>, h: Header) returns (r: Result<()>)
      requires Valid()
      modifies this
      ensures Valid()
      ensures (State(), r) == LegacyData(old(State()), size, data, h, false)
    {
      if !dummyRunning {
        starts := starts + 1;
      }
      received := true;
      if h.packetNumber == 0 {
        return Err(AttributeError);
      }
      if h.packetNumber == FirstPacket(misbehaving) {
        index := 0;
      }
      buffer := Put(buffer, index, Min(size, index + h.frameSize), PyText.Slice(data, 6, -1));
      index := index + h.frameSize;
      if h.packetNumber == LastPacket(misbehaving, h.packets) {
        shown := shown + [buffer];
      }
      return Ok(());
    }

    /** The timeout check once the timeout has elapsed. */
    method TimedOut()
      modifies this
      ensures old(received) ==> State() == old(State()).(dummyRunning := false, received := false, misbehaving := false)
      ensures !old(received) ==> State() == old(State())
    {
      if received {
        dummyRunning := false;
        received := false;
        misbehaving := false;
      }
    }
  }

  /** A well-formed data packet as the corrected legacy receiver takes it,
      field by field. */
  lemma FixedStep(s: LegacyServer, size: nat, d: seq<Byte>)
    requires |s.buffer| == size && WellFormed(d) && d[1] == DataFrame
    ensures var r := FixedHandle(s, size, d);
      var h := HeaderOf(d);
      var mis := s.misbehaving || h.packetNumber == 0;
      var index := if h.packetNumber == FirstPacket(mis) then 0 else s.index;
      && r.1 == Ok(())
      && r.0.misbehaving == mis
      && r.0.index == index + h.frameSize
      && r.0.buffer == Put(s.buffer, index, Min(size, index + h.frameSize), d[6..|d| - 1])
      && r.0.shown == (if h.packetNumber == LastPacket(mis, h.packets) then s.shown + [r.0.buffer] else s.shown)
  {
    DispatchData(s, size, d, true);
    PacketValues(d);
  }

  /** A well-formed data packet reaches the data branch of the legacy
      handler. */
  lemma DispatchData(s: LegacyServer, size: nat, d: seq<Byte>, fixed: bool)
    requires |s.buffer| == size && WellFormed(d) && d[1] == DataFrame
    ensures Dispatch(s, size, d, fixed) == LegacyData(s, size, d, HeaderOf(d), fixed)
  {
    WellFormedRead(d);
  }


  /** One packet carrying a whole frame: the legacy receiver shows the same
      frame as the rewrite. */
  lemma LegacySinglePacketShown(s: LegacyServer, size: nat, d: seq<Byte>)
    requires |s.buffer| == size
    requires WellFormed(d) && d[1] == DataFrame && d[4] == 1 && d[5] == 1 && FrameSize(d) == size
    requires !s.misbehaving
    ensures LegacyHandle(s, size, d).1 == Ok(())
    ensures LegacyHandle(s, size, d).0.shown == s.shown + [d[6..6 + size]]
  {
    var h := HeaderOf(d);
    assert h.packetNumber == 1 && h.packets == 1;
    assert LegacyHandle(s, size, d) == FixedHandle(s, size, d) by {
      FixedAgreesOffZero(s, size, d);
    }
    var r := FixedHandle(s, size, d);
    var p := d[6..|d| - 1];
    assert r.1 == Ok(()) && r.0.shown == s.shown + [r.0.buffer]
        && r.0.buffer == Put(s.buffer, 0, size, p) by {
      FixedStep(s, size, d);
      PacketValues(d);
    }
    assert Put(s.buffer, 0, size, p) == d[6..6 + size] by {
      PacketValues(d);
      assert p == d[6..6 + size];
      PutTail(s.buffer, [], p);
      assert [] + p == p;
    }
  }

  /** Two packets of one frame, numbered from 1: the receiver shows their
      payloads joined. */
  lemma SplitFrameShown(s: LegacyServer, size: nat, d1: seq<Byte>, d2: seq<Byte>)
    requires |s.buffer| == size && !s.misbehaving
    requires WellFormed(d1) && d1[1] == DataFrame && d1[4] == 1 && d1[5] == 2
    requires WellFormed(d2) && d2[1] == DataFrame && d2[4] == 2 && d2[5] == 2
    requires FrameSize(d1) + FrameSize(d2) == size
    ensures var (s1, r1) := FixedHandle(s, size, d1);
      && r1 == Ok(()) && s1.shown == s.shown
      && var (s2, r2) := FixedHandle(s1, size, d2);
      r2 == Ok(()) && s2.shown == s.shown + [d1[6..|d1| - 1] + d2[6..|d2| - 1]]
  {
    TwoPackets(s, size, d1, d2, false);
  }

  /** A sender numbering from 0 (packets 0 and 1 of 2): as written, packet 0
      raises and the frame is never shown; with packet 0 recorded, the frame
      is shown after packet 1. */
  lemma ZeroBasedStream(s: LegacyServer, size: nat, d0: seq<Byte>, d1: seq<Byte>)
    requires |s.buffer| == size && !s.misbehaving
    requires WellFormed(d0) && d0[1] == DataFrame && d0[4] == 0 && d0[5] == 2
    requires WellFormed(d1) && d1[1] == DataFrame && d1[4] == 1 && d1[5] == 2
    requires FrameSize(d0) + FrameSize(d1) == size
    ensures var (a1, e1) := LegacyHandle(s, size, d0);
      && e1 == Err(AttributeError) && !a1.misbehaving
      && var (a2, e2) := LegacyHandle(a1, size, d1);
      e2 == Ok(()) && a2.shown == s.shown
    ensures var (s1, r1) := FixedHandle(s, size, d0);
      && r1 == Ok(()) && s1.misbehaving
      && var (s2, r2) := FixedHandle(s1, size, d1);
      r2 == Ok(()) && s2.shown == s.shown + [d0[6..|d0| - 1] + d1[6..|d1| - 1]]
  {
    WellFormedRead(d0);
    var a1 := LegacyHandle(s, size, d0).0;
    FixedAgreesOffZero(a1, size, d1);
    FixedStep(a1, size, d1);
    TwoPackets(s, size, d0, d1, true);
  }

  /** The two packets of a frame, the first numbered 0 when `zeroBased`,
      else 1, are put side by side in the buffer and shown joined. */
  lemma TwoPackets(s: LegacyServer, size: nat, d1: seq<Byte>, d2: seq<Byte>, zeroBased: bool)
    requires |s.buffer| == size && !s.misbehaving
    requires WellFormed(d1) && d1[1] == DataFrame && d1[5] == 2
    requires WellFormed(d2) && d2[1] == DataFrame && d2[5] == 2
    requires if zeroBased then d1[4] == 0 && d2[4] == 1 else d1[4] == 1 && d2[4] == 2
    requires FrameSize(d1) + FrameSize(d2) == size
    ensures var (s1, r1) := FixedHandle(s, size, d1);
      && r1 == Ok(()) && s1.shown == s.shown && s1.misbehaving == zeroBased
      && var (s2, r2) := FixedHandle(s1, size, d2);
      r2 == Ok(()) && s2.shown == s.shown + [d1[6..|d1| - 1] + d2[6..|d2| - 1]]
  {
    var p1 := d1[6..|d1| - 1];
    var p2 := d2[6..|d2| - 1];
    FirstOfTwo(s, size, d1, zeroBased);
    var s1 := FixedHandle(s, size, d1).0;
    SecondOfTwo(s1, size, d2, zeroBased, p1);
  }

  lemma FirstOfTwo(s: LegacyServer, size: nat, d: seq<Byte>, zeroBased: bool)
    requires |s.buffer| == size && !s.misbehaving
    requires WellFormed(d) && d[1] == DataFrame && d[5] == 2
    requires d[4] == (if zeroBased then 0 else 1) && FrameSize(d) <= size
    ensures var r := FixedHandle(s, size, d);
      && r.1 == Ok(()) && r.0.shown == s.shown && r.0.misbehaving == zeroBased
      && r.0.index == FrameSize(d)
      && |r.0.buffer| == size && r.0.buffer[..FrameSize(d)] == d[6..|d| - 1]
  {
    var r := FixedHandle(s, size, d);
    var p := d[6..|d| - 1];
    FirstPacketStep(s, size, d, zeroBased);
    PacketValues(d);
    assert r.0.buffer[..FrameSize(d)] == p by {
      PutPrefix(s.buffer, p);
    }
  }

  /** The fields the first packet of a frame sets. */
  lemma FirstPacketStep(s: LegacyServer, size: nat, d: seq<Byte>, zeroBased: bool)
    requires |s.buffer| == size && !s.misbehaving
    requires WellFormed(d) && d[1] == DataFrame && d[5] == 2
    requires d[4] == (if zeroBased then 0 else 1) && FrameSize(d) <= size
    ensures var r := FixedHandle(s, size, d);
      && r.1 == Ok(()) && r.0.shown == s.shown && r.0.misbehaving == zeroBased
      && r.0.index == FrameSize(d)
      && r.0.buffer == Put(s.buffer, 0, |d[6..|d| - 1]|, d[6..|d| - 1])
  {
    var h := HeaderOf(d);
    assert h.packetNumber == (if zeroBased then 0 else 1) && h.packets == 2;
    PacketValues(d);
    FixedStep(s, size, d);
  }

  lemma SecondOfTwo(s1: LegacyServer, size: nat, d: seq<Byte>, zeroBased: bool, p1: seq<Byte>)
    requires |s1.buffer| == size && s1.misbehaving == zeroBased
    requires WellFormed(d) && d[1] == DataFrame && d[5] == 2 && d[4] == (if zeroBased then 1 else 2)
    requires s1.index == |p1| && |p1| + FrameSize(d) == size && s1.buffer[..|p1|] == p1
    ensures var (s2, r2) := FixedHandle(s1, size, d);
      r2 == Ok(()) && s2.shown == s1.shown + [p1 + d[6..|d| - 1]]
  {
    var h := HeaderOf(d);
    assert h.packetNumber == (if zeroBased then 1 else 2) && h.packets == 2;
    var r := FixedHandle(s1, size, d);
    var p := d[6..|d| - 1];
    assert |p| == FrameSize(d) by {
      PacketValues(d);
    }
    assert r.1 == Ok(()) && r.0.shown == s1.shown + [r.0.buffer]
        && r.0.buffer == Put(s1.buffer, |p1|, size, p) by {
      FixedStep(s1, size, d);
    }
    PutTail(s1.buffer, p1, p);
  }

  /** Values written from the start of the buffer are its new prefix. */
  lemma PutPrefix(buffer: seq<Byte>, values: seq<Byte>)
    requires |values| <= |buffer|
    ensures Put(buffer, 0, |values|, values)[..|values|] == values
  {
    PutExact(buffer, 0, values);
    assert (buffer[..0] + values + buffer[|values|..])[..|values|] == values;
  }

  /** Values that fill the buffer behind its prefix complete it. */
  lemma PutTail(buffer: seq<Byte>, prefix: seq<Byte>, values: seq<Byte>)
    requires |prefix| + |values| == |buffer| && buffer[..|prefix|] == prefix
    ensures Put(buffer, |prefix|, |buffer|, values) == prefix + values
  {
    PutExact(buffer, |prefix|, values);
    assert buffer[..|prefix|] + values + buffer[|buffer|..] == prefix + values;
  }
}
