/** Firmware update over BLE: one write is one command, and a session lives from an
    accepted BEGIN until COMPLETE, ABORTED or the first refused command. */
module Ota {
  import opened Words

  const BEGIN: byte := 1
  const DATA: byte := 2
  const END: byte := 3
  const ABORT: byte := 4
  const PACKET_SIZE: nat := 512

  type Packet = seq<byte>

  datatype Cause = InvalidArg | InvalidSize | InvalidState | NotSupported | Flash

  /** What the client sees; an accepted DATA command is not answered. */
  datatype Reply = Ready(size: u32) | Refused(cause: Cause) | Complete(size: u32) | Aborted | Silent

  /** How the flash behaves during one command: the size of the update partition, if
      there is one, and whether each operation succeeds. */
  datatype Os = Os(partition: Option<u32>, begin: bool, write: bool, end: bool, boot: bool)

  datatype Session = Session(handle: bool, partition: bool, expected: u32, received: u32)

  const IDLE := Session(false, false, 0, 0)

  function Le32(p: Packet): u32
    requires |p| == 4
  {
    p[0] as int + 0x100 * p[1] as int + 0x1_0000 * p[2] as int + 0x100_0000 * p[3] as int
  }

  predicate Readable(p: Packet) {
    0 < |p| <= PACKET_SIZE
  }

  // ---- One command, as a function -------------------------------------------------------

  function OnBegin(p: Packet, os: Os): (Session, Reply) {
    if |p| != 5 then (IDLE, Refused(InvalidArg))
    else
      var size := Le32(p[1..5]);
      if size == 0 || os.partition.None? || size > os.partition.value then (IDLE, Refused(InvalidSize))
      else if !os.begin then (IDLE, Refused(Flash))
      else (Session(true, true, size, 0), Ready(size))
  }

  function OnData(s: Session, p: Packet, os: Os): (Session, Reply) {
    if |p| <= 5 || !s.handle then (IDLE, Refused(InvalidState))
    else if Le32(p[1..5]) != s.received || |p| - 5 > (s.expected - s.received) % WORD32 then
      (IDLE, Refused(InvalidArg))
    else if !os.write then (IDLE, Refused(Flash))
    else (s.(received := (s.received + |p| - 5) % WORD32), Silent)
  }

  function OnEnd(s: Session, p: Packet, os: Os): (Session, Reply) {
    if |p| != 1 || !s.handle || s.received != s.expected then (IDLE, Refused(InvalidState))
    else if !os.end || !os.boot then (IDLE, Refused(Flash))
    else (IDLE, Complete(s.received))
  }

  function Step(s: Session, p: Packet, os: Os): (Session, Reply) {
    if !Readable(p) then (s, Refused(InvalidArg))
    else if p[0] == BEGIN then OnBegin(p, os)
    else if p[0] == DATA then OnData(s, p, os)
    else if p[0] == END then OnEnd(s, p, os)
    else if p[0] == ABORT then (IDLE, Aborted)
    else (IDLE, Refused(NotSupported))
  }

  // ---- The fields and the switch ----------------------------------------------------------

  class Updater {
    var handle: bool
    var partition: bool
    var expected: u32
    var received: u32

    function Contents(): Session
      reads this
    {
      Session(handle, partition, expected, received)
    }

    constructor ()
      ensures Contents() == IDLE
    {
      handle, partition, expected, received := false, false, 0, 0;
    }

    method Reset()
      modifies this
      ensures Contents() == IDLE
    {
      handle, partition, expected, received := false, false, 0, 0;
    }

    /** Each command leaves its reply, or the error the common exit reports. */
    method Begin(p: Packet, os: Os) returns (reply: Reply)
      modifies this
      ensures reply == OnBegin(p, os).1
      ensures !reply.Refused? ==> Contents() == OnBegin(p, os).0
    {
      if |p| != 5 {
        return Refused(InvalidArg);
      }
      var size := Le32(p[1..5]);
      if size == 0 || os.partition.None? || size > os.partition.value {
        return Refused(InvalidSize);
      }
      Reset();
      handle := os.begin;
      if os.begin {
        partition := true;
        expected := size;
        received := 0;
        return Ready(size);
      }
      reply := Refused(Flash);
    }

    method Data(p: Packet, os: Os) returns (reply: Reply)
      modifies this
      ensures reply == OnData(old(Contents()), p, os).1
      ensures !reply.Refused? ==> Contents() == OnData(old(Contents()), p, os).0
    {
      if |p| <= 5 || !handle {
        return Refused(InvalidState);
      }
      var offset := Le32(p[1..5]);
      var dataLen := |p| - 5;
      if offset != received || dataLen > (expected - received) % WORD32 {
        return Refused(InvalidArg);
      }
      if os.write {
        received := (received + dataLen) % WORD32;
        return Silent;
      }
      reply := Refused(Flash);
    }

    method End(p: Packet, os: Os) returns (reply: Reply)
      modifies this
      ensures reply == OnEnd(old(Contents()), p, os).1
      ensures !reply.Refused? ==> Contents() == OnEnd(old(Contents()), p, os).0
    {
      if |p| != 1 || !handle || received != expected {
        return Refused(InvalidState);
      }
      if os.end && os.boot {
        var imageSize := received;
        Reset();
        return Complete(imageSize);
      }
      reply := Refused(Flash);
    }

    method ProcessWrite(p: Packet, os: Os) returns (reply: Reply)
      modifies this
      ensures (Contents(), reply) == Step(old(Contents()), p, os)
    {
      if |p| == 0 || |p| > PACKET_SIZE {
        return Refused(InvalidArg);
      }
      if p[0] == BEGIN {
        reply := Begin(p, os);
      } else if p[0] == DATA {
        reply := Data(p, os);
      } else if p[0] == END {
        reply := End(p, os);
      } else if p[0] == ABORT {
        Reset();
        reply := Aborted;
      } else {
        reply := Refused(NotSupported);
      }
      if reply.Refused? {
        Reset();
      }
    }
  }

  // ---- Runs --------------------------------------------------------------------------------

  datatype Input = Input(packet: Packet, os: Os)

  /** A command, what flash did during it and what the client saw. */
  datatype Seen = Seen(packet: Packet, os: Os, reply: Reply)

  function After(s: Session, run: seq<Input>): Session {
    if run == [] then s
    else Step(After(s, run[..|run| - 1]), run[|run| - 1].packet, run[|run| - 1].os).0
  }

  function Log(s: Session, run: seq<Input>): (log: seq<Seen>)
    ensures |log| == |run|
  {
    if run == [] then []
    else
      var n := |run| - 1;
      Log(s, run[..n]) + [Seen(run[n].packet, run[n].os, Step(After(s, run[..n]), run[n].packet, run[n].os).1)]
  }

  /** Bodies of the DATA commands accepted from `from` on, in order. */
  function Image(log: seq<Seen>, from: nat): seq<byte>
    requires from <= |log|
  {
    if from == |log| then []
    else
      var n := |log| - 1;
      Image(log[..n], from) + if log[n].reply.Silent? && |log[n].packet| > 5 then log[n].packet[5..] else []
  }

  /** From `from` on there were only unreadable packets and DATA commands that were written,
      each at the offset that the bodies before it add up to. */
  ghost predicate OnlyData(log: seq<Seen>, from: nat) {
    from <= |log|
    && forall i | from <= i < |log| :: !Readable(log[i].packet) || DataAt(log, from, i)
  }

  ghost predicate DataAt(log: seq<Seen>, from: nat, i: nat)
    requires from <= i < |log|
  {
    var p := log[i].packet;
    && log[i].reply == Silent && log[i].os.write && 5 < |p| <= 512 && p[0] == 2
    && Le32(p[1..5]) == |Image(log[..i], from)|
  }

  /** The command before `from` announced `size`, and since then there was only data. */
  ghost predicate Receiving(log: seq<Seen>, from: nat, size: u32) {
    && 0 < from <= |log| && log[from - 1].reply == Ready(size)
    && |log[from - 1].packet| == 5 && log[from - 1].packet[0] == 1 && Le32(log[from - 1].packet[1..5]) == size
    && log[from - 1].os.begin && log[from - 1].os.partition.Some? && 0 < size <= log[from - 1].os.partition.value
    && OnlyData(log, from)
  }

  ghost predicate Inv(s: Session, log: seq<Seen>, from: nat) {
    && s.received <= s.expected
    && (s.handle ==> Receiving(log, from, s.expected) && |Image(log, from)| == s.received)
    && (!s.handle ==> s == IDLE)
  }

  /** What a session that has received `from`.. looks like one entry later. */
  lemma ImageExtends(log: seq<Seen>, from: nat, e: Seen)
    requires from <= |log|
    ensures Image(log + [e], from) ==
      Image(log, from) + if e.reply.Silent? && |e.packet| > 5 then e.packet[5..] else []
  {
    assert (log + [e])[..|log|] == log;
  }

  lemma ReceivingExtends(log: seq<Seen>, from: nat, size: u32, e: Seen)
    requires Receiving(log, from, size)
    requires !Readable(e.packet) ||
      (e.reply == Silent && e.os.write && 5 < |e.packet| <= 512 && e.packet[0] == 2 && Le32(e.packet[1..5]) == |Image(log, from)|)
    ensures Receiving(log + [e], from, size)
  {
    var log' := log + [e];
    forall i | from <= i < |log'|
      ensures !Readable(log'[i].packet) || DataAt(log', from, i)
    {
      assert log'[..i] == log[..i];
      assert i < |log| ==> log'[i] == log[i] && (!Readable(log[i].packet) || DataAt(log, from, i));
      assert i == |log| ==> log[..i] == log;
    }
  }

  /** A session survives a command in one of three ways. */
  lemma HowSessionsLive(s: Session, p: Packet, os: Os)
    requires s.received <= s.expected
    ensures var (s', reply) := Step(s, p, os);
      || s' == IDLE
      || (!Readable(p) && s' == s && reply == Refused(InvalidArg))
      || (|p| == 5 && p[0] == BEGIN && os.begin && os.partition.Some? && 0 < s'.expected <= os.partition.value && s' == Session(true, true, Le32(p[1..5]), 0) && reply == Ready(s'.expected))
      || (Readable(p) && |p| > 5 && p[0] == DATA && os.write && s.handle && Le32(p[1..5]) == s.received && reply == Silent
          && s.received + |p| - 5 <= s.expected && s' == s.(received := s.received + |p| - 5))
  {
  }

  /** The invariant over one command, with the start of the session after it. */
  lemma StepKeepsInv(s: Session, log: seq<Seen>, from: nat, p: Packet, os: Os)
    requires Inv(s, log, from)
    ensures var (s', reply) := Step(s, p, os);
      Inv(s', log + [Seen(p, os, reply)], if reply.Ready? then |log| + 1 else from)
  {
    var (s', reply) := Step(s, p, os);
    var e := Seen(p, os, reply);
    HowSessionsLive(s, p, os);
    if s'.handle && reply.Ready? {
      BeginKeepsInv(s', log, e);
    } else if s'.handle {
      ReceivingExtends(log, from, s.expected, e);
      ImageExtends(log, from, e);
    }
  }

  lemma BeginKeepsInv(s: Session, log: seq<Seen>, e: Seen)
    requires |e.packet| == 5 && e.packet[0] == BEGIN && e.os.begin && e.os.partition.Some?
    requires 0 < s.expected <= e.os.partition.value
    requires s == Session(true, true, Le32(e.packet[1..5]), 0) && e.reply == Ready(s.expected)
    ensures Inv(s, log + [e], |log| + 1)
  {
    assert Image(log + [e], |log| + 1) == [];
  }

  /** Start of the last session in the log. */
  function LastStart(log: seq<Seen>): (from: nat)
    ensures from <= |log|
  {
    if log == [] then 0
    else if log[|log| - 1].reply.Ready? then |log|
    else LastStart(log[..|log| - 1])
  }

  lemma {:induction false} RunKeepsInv(run: seq<Input>)
    ensures Inv(After(IDLE, run), Log(IDLE, run), LastStart(Log(IDLE, run)))
  {
    if run == [] {
    } else {
      var n := |run| - 1;
      RunKeepsInv(run[..n]);
      var s, log := After(IDLE, run[..n]), Log(IDLE, run[..n]);
      StepKeepsInv(s, log, LastStart(log), run[n].packet, run[n].os);
      assert Log(IDLE, run)[..n] == log;
    }
  }

  lemma CompleteIff(s: Session, p: Packet, os: Os, size: u32)
    ensures Step(s, p, os).1 == Complete(size) <==>
      p == [3] && s.handle && s.received == s.expected == size && os.end && os.boot
    ensures Step(s, p, os).1 == Complete(size) ==> Step(s, p, os).0 == IDLE
  {
  }

  /** COMPLETE is reported only for a whole image that flash has taken: since the BEGIN that
      announced that very size, for a partition with room for it, there were only unreadable
      packets and DATA commands written at their stated offsets, their bodies together have
      that size, and both the image check and the switch of the boot partition went well. */
  lemma CompleteMeansWholeImage(run: seq<Input>, last: Input, log: seq<Seen>, size: u32)
    requires log == Log(IDLE, run)
    requires Step(After(IDLE, run), last.packet, last.os).1 == Complete(size)
    ensures Receiving(log, LastStart(log), size) && |Image(log, LastStart(log))| == size
    ensures last.packet == [3] && last.os.end && last.os.boot
  {
    var s := After(IDLE, run);
    RunKeepsInv(run);
    CompleteIff(s, last.packet, last.os, size);
  }

  /** What the log shows of a session, the session has. */
  ghost predicate Backed(s: Session, log: seq<Seen>, from: nat, size: u32) {
    Receiving(log, from, size) ==> s == Session(true, true, size, |Image(log, from)| % WORD32)
  }

  lemma ReceivingWas(log: seq<Seen>, from: nat, size: u32, e: Seen)
    requires from <= |log| && Receiving(log + [e], from, size)
    ensures Receiving(log, from, size)
    ensures !Readable(e.packet) || DataAt(log + [e], from, |log|)
  {
    var log' := log + [e];
    forall i | from <= i < |log|
      ensures !Readable(log[i].packet) || DataAt(log, from, i)
    {
      assert log'[..i] == log[..i] && log'[i] == log[i];
      assert !Readable(log'[i].packet) || DataAt(log', from, i);
    }
    assert !Readable(log'[|log|].packet) || DataAt(log', from, |log|);
  }

  lemma StepKeepsBacked(s: Session, log: seq<Seen>, from: nat, size: u32, p: Packet, os: Os)
    requires Backed(s, log, from, size)
    ensures var (s', reply) := Step(s, p, os); Backed(s', log + [Seen(p, os, reply)], from, size)
  {
    var (s', reply) := Step(s, p, os);
    var e := Seen(p, os, reply);
    if Receiving(log + [e], from, size) {
      if from <= |log| {
        ReceivingWas(log, from, size, e);
        ImageExtends(log, from, e);
      }
    }
  }

  lemma {:induction false} RunKeepsBacked(run: seq<Input>, from: nat, size: u32)
    ensures Backed(After(IDLE, run), Log(IDLE, run), from, size)
  {
    if run == [] {
    } else {
      var n := |run| - 1;
      RunKeepsBacked(run[..n], from, size);
      StepKeepsBacked(After(IDLE, run[..n]), Log(IDLE, run[..n]), from, size, run[n].packet, run[n].os);
    }
  }

  /** And exactly then: END completes whenever the log ends with an accepted BEGIN and only
      data since, the bodies make up its size and both flash operations go well. */
  lemma CompletesIff(run: seq<Input>, last: Input, log: seq<Seen>, size: u32)
    requires log == Log(IDLE, run)
    ensures Step(After(IDLE, run), last.packet, last.os).1 == Complete(size) <==>
      && last.packet == [3] && last.os.end && last.os.boot
      && Receiving(log, LastStart(log), size) && |Image(log, LastStart(log))| == size
  {
    RunKeepsInv(run);
    RunKeepsBacked(run, LastStart(log), size);
    CompleteIff(After(IDLE, run), last.packet, last.os, size);
  }

  /** Which commands are refused, and why. */
  lemma RefusedIff(s: Session, p: Packet, os: Os)
    requires s.received <= s.expected && Readable(p)
    ensures var reply := Step(s, p, os).1;
      && (reply == Refused(NotSupported) <==> p[0] == 0 || p[0] > 4)
      && (reply == Refused(InvalidSize) <==>
            p[0] == 1 && |p| == 5 && (Le32(p[1..5]) == 0 || os.partition.None? || Le32(p[1..5]) > os.partition.value))
      && (reply == Refused(InvalidState) <==>
            (p[0] == 2 && (|p| <= 5 || !s.handle)) || (p[0] == 3 && (|p| > 1 || !s.handle || s.received < s.expected)))
      && (reply == Aborted <==> p[0] == 4)
      && (p[0] == 1 && |p| == 5 ==> (reply.Ready? <==>
            os.begin && os.partition.Some? && 0 < Le32(p[1..5]) <= os.partition.value))
      && (p[0] == 2 && |p| > 5 && s.handle ==> (reply.Silent? <==>
            os.write && Le32(p[1..5]) == s.received && s.received + |p| - 5 <= s.expected))
      && (p[0] == 3 && |p| == 1 && s.handle && s.received == s.expected ==> (reply.Complete? <==> os.end && os.boot))
  {
  }

  /** Received never passes expected, and without a handle both are zero. */
  lemma CountersStayConsistent(run: seq<Input>)
    ensures var s := After(IDLE, run);
      s.received <= s.expected && (!s.handle ==> s.expected == 0 && s.received == 0)
  {
    RunKeepsInv(run);
  }

  /** A refused command discards the session exactly when its packet could be read. */
  lemma RefusalDiscards(run: seq<Input>, last: Input)
    requires Step(After(IDLE, run), last.packet, last.os).1.Refused?
    ensures Readable(last.packet) ==> After(IDLE, run + [last]) == IDLE
    ensures !Readable(last.packet) ==> After(IDLE, run + [last]) == After(IDLE, run)
  {
    assert (run + [last])[..|run|] == run;
  }

  // ---- A client that uploads an image ------------------------------------------------------

  function PutLe32(n: u32): (p: Packet)
    ensures |p| == 4
  {
    [n % 0x100, n / 0x100 % 0x100, n / 0x1_0000 % 0x100, n / 0x100_0000]
  }

  lemma Le32UndoesPut(n: u32)
    ensures Le32(PutLe32(n)) == n
  {
    var a, b, c := n / 0x100, n / 0x1_0000, n / 0x100_0000;
    assert b == a / 0x100 && c == b / 0x100;
  }

  const GOOD := Os(Some(0xFFFF_FFFF), true, true, true, true)

  function DataPacket(offset: u32, body: seq<byte>): Packet {
    [DATA] + PutLe32(offset) + body
  }

  /** DATA commands for the given bodies, the first of them at `offset`. */
  function Chunks(offset: nat, bodies: seq<seq<byte>>): seq<Input>
    requires offset + |Flat(bodies)| < WORD32
  {
    if bodies == [] then []
    else
      var n := |bodies| - 1;
      assert Flat(bodies) == Flat(bodies[..n]) + bodies[n];
      Chunks(offset, bodies[..n]) + [Input(DataPacket(offset + |Flat(bodies[..n])|, bodies[n]), GOOD)]
  }

  function Flat(bodies: seq<seq<byte>>): seq<byte> {
    if bodies == [] then [] else Flat(bodies[..|bodies| - 1]) + bodies[|bodies| - 1]
  }

  function Upload(bodies: seq<seq<byte>>): seq<Input>
    requires |Flat(bodies)| < WORD32
  {
    [Input([BEGIN] + PutLe32(|Flat(bodies)|), GOOD)] + Chunks(0, bodies)
  }

  lemma BeginIsAccepted(s: Session, size: u32)
    requires size > 0
    ensures Step(s, [BEGIN] + PutLe32(size), GOOD) == (Session(true, true, size, 0), Ready(size))
  {
    Le32UndoesPut(size);
    assert ([BEGIN] + PutLe32(size))[1..5] == PutLe32(size);
  }

  lemma DataIsAccepted(s: Session, body: seq<byte>)
    requires s.handle && 0 < |body| <= PACKET_SIZE - 5 && s.received + |body| <= s.expected
    ensures Step(s, DataPacket(s.received, body), GOOD) == (s.(received := s.received + |body|), Silent)
    ensures DataPacket(s.received, body)[5..] == body
  {
    Le32UndoesPut(s.received);
    assert DataPacket(s.received, body)[1..5] == PutLe32(s.received);
  }

  lemma AfterLast(s: Session, run: seq<Input>, last: Input)
    ensures After(s, run + [last]) == Step(After(s, run), last.packet, last.os).0
    ensures Log(s, run + [last]) == Log(s, run) + [Seen(last.packet, last.os, Step(After(s, run), last.packet, last.os).1)]
  {
    assert (run + [last])[..|run|] == run;
  }

  /** However the image is split, uploading it from any state works: the device has
      then received exactly the image, and END completes with its size. */
  lemma {:induction false} UploadArrives(s: Session, bodies: seq<seq<byte>>, all: seq<seq<byte>>)
    requires forall i :: 0 <= i < |all| ==> 0 < |all[i]| <= PACKET_SIZE - 5
    requires 0 < |Flat(all)| < WORD32 && bodies <= all
    ensures |Flat(bodies)| <= |Flat(all)|
    ensures var run := [Input([BEGIN] + PutLe32(|Flat(all)|), GOOD)] + Chunks(0, bodies);
      && After(s, run) == Session(true, true, |Flat(all)|, |Flat(bodies)|)
      && Image(Log(s, run), 1) == Flat(bodies)
    decreases bodies
  {
    FlatIsMonotone(bodies, all);
    var begin := Input([BEGIN] + PutLe32(|Flat(all)|), GOOD);
    if bodies == [] {
      BeginIsAccepted(s, |Flat(all)|);
      AfterLast(s, [], begin);
      assert [begin] + Chunks(0, bodies) == [] + [begin];
    } else {
      var n := |bodies| - 1;
      var before := [begin] + Chunks(0, bodies[..n]);
      UploadArrives(s, bodies[..n], all);
      var last := Input(DataPacket(|Flat(bodies[..n])|, bodies[n]), GOOD);
      assert bodies[n] == all[n];
      DataIsAccepted(After(s, before), bodies[n]);
      AfterLast(s, before, last);
      assert [begin] + Chunks(0, bodies) == before + [last];
      ImageExtends(Log(s, before), 1, Seen(last.packet, GOOD, Silent));
    }
  }

  lemma {:induction false} FlatIsMonotone(bodies: seq<seq<byte>>, all: seq<seq<byte>>)
    requires bodies <= all
    ensures |Flat(bodies)| <= |Flat(all)|
    decreases |all| - |bodies|
  {
    if |bodies| < |all| {
      var next := all[..|bodies| + 1];
      assert next[..|bodies|] == bodies;
      FlatIsMonotone(next, all);
    } else {
      assert bodies == all;
    }
  }

  lemma UploadCompletes(s: Session, bodies: seq<seq<byte>>)
    requires forall i :: 0 <= i < |bodies| ==> 0 < |bodies[i]| <= PACKET_SIZE - 5
    requires 0 < |Flat(bodies)| < WORD32
    ensures Image(Log(s, Upload(bodies)), 1) == Flat(bodies)
    ensures Step(After(s, Upload(bodies)), [END], GOOD) == (IDLE, Complete(|Flat(bodies)|))
  {
    UploadArrives(s, bodies, bodies);
  }
}
