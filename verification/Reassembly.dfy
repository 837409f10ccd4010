/** The stream reassembler of the TCP connection: finds start bytes, takes the length byte,
    and returns once the packet is complete. */
module Reassembly {
  import opened Adast
  import opened Bytes
  import opened Crc
  import opened Frames
  import opened Wrappers

  // Nothing is assumed about how the bytes are spread over reads, or about reads that fail in
  // between. The time limit in the loop compares an elapsed time that is never positive, so it
  // does not occur here.

  datatype Config = Config(start: seq<Octet>, sizeIndex: int, additionalSize: nat)

  /** The variables of the loop. */
  datatype Progress = Progress(startIn: nat, packetLen: nat, response: seq<Octet>)

  datatype Step = Continue(next: Progress) | Return(packet: seq<Octet>)

  const ADAST_CONFIG := Config([0x16, 0x16], 4, 7)

  const BEGINNING := Progress(0, 200, [])

  /** What one byte does. */
  function Advance(c: Config, p: Progress, byte: Octet): Step {
    if p.startIn < |c.start| then
      if byte == c.start[p.startIn] then Continue(p.(startIn := p.startIn + 1, response := p.response + [byte]))
      else if p.startIn > 0 then Continue(p.(startIn := 0, response := []))
      else Continue(p)
    else if |p.response| == c.sizeIndex - 1 then
      Continue(p.(packetLen := byte as int, response := p.response + [byte]))
    else
      var total := p.packetLen + c.additionalSize;
      var response := if |p.response| != total then p.response + [byte] else p.response;
      if |response| >= total then Return(response) else Continue(p.(response := response))
  }

  datatype Outcome = Waiting | Returned(packet: seq<Octet>, used: nat)

  /** The packet that is returned and the number of bytes taken from the stream by then, if
      the stream is long enough; `used` were taken before. */
  function Run(c: Config, p: Progress, stream: seq<Octet>, used: nat): Outcome
    decreases |stream|
  {
    if stream == [] then Waiting
    else
      var step := Advance(c, p, stream[0]);
      if step.Return? then Returned(step.packet, used + 1) else Run(c, step.next, stream[1..], used + 1)
  }

  /** The bytes of the reads that succeed. */
  function Received(arrivals: seq<Option<Octet>>): seq<Octet> {
    if arrivals == [] then [] else (if arrivals[0].Some? then [arrivals[0].value] else []) + Received(arrivals[1..])
  }

  lemma ReceivedNext(arrivals: seq<Option<Octet>>, n: nat)
    requires n < |arrivals|
    ensures Received(arrivals[n..])
         == if arrivals[n].Some? then [arrivals[n].value] + Received(arrivals[n + 1..]) else Received(arrivals[n + 1..])
  {
    assert arrivals[n..][1..] == arrivals[n + 1..];
  }

  lemma RunNext(c: Config, p: Progress, byte: Octet, rest: seq<Octet>, used: nat)
    ensures var step := Advance(c, p, byte);
            Run(c, p, [byte] + rest, used)
            == if step.Return? then Returned(step.packet, used + 1) else Run(c, step.next, rest, used + 1)
  {
    assert ([byte] + rest)[1..] == rest;
  }

  /** The outcome from read `n` on. */
  function RunFrom(c: Config, p: Progress, arrivals: seq<Option<Octet>>, n: nat, used: nat): Outcome
    requires n <= |arrivals|
  {
    Run(c, p, Received(arrivals[n..]), used)
  }

  lemma RunFromNext(c: Config, p: Progress, arrivals: seq<Option<Octet>>, n: nat, used: nat)
    requires n < |arrivals|
    ensures RunFrom(c, p, arrivals, n, used)
         == if arrivals[n] == None then RunFrom(c, p, arrivals, n + 1, used)
            else
              var step := Advance(c, p, arrivals[n].value);
              if step.Return? then Returned(step.packet, used + 1) else RunFrom(c, step.next, arrivals, n + 1, used + 1)
  {
    ReceivedNext(arrivals, n);
    if arrivals[n].Some? {
      RunNext(c, p, arrivals[n].value, Received(arrivals[n + 1..]), used);
    }
  }

  lemma RunFromStart(c: Config, p: Progress, arrivals: seq<Option<Octet>>, used: nat)
    ensures RunFrom(c, p, arrivals, 0, used) == Run(c, p, Received(arrivals), used)
    ensures RunFrom(c, p, arrivals, |arrivals|, used) == Waiting
  {
    assert arrivals[0..] == arrivals && arrivals[|arrivals|..] == [];
  }

  /** The loop itself, over the results of its reads. `used` counts the bytes it took. */
  method TransmitByStartEnd(c: Config, arrivals: seq<Option<Octet>>) returns (result: Option<seq<Octet>>, used: nat)
    ensures var outcome := Run(c, BEGINNING, Received(arrivals), 0);
            if outcome.Waiting? then result == None else result == Some(outcome.packet) && used == outcome.used
  {
    var startIn: nat, packetLen: nat, responsePacket: seq<Octet> := 0, 200, [];
    used := 0;
    var n := 0;
    RunFromStart(c, BEGINNING, arrivals, 0);
    while n < |arrivals|
      invariant 0 <= n <= |arrivals|
      invariant RunFrom(c, BEGINNING, arrivals, 0, 0)
             == RunFrom(c, Progress(startIn, packetLen, responsePacket), arrivals, n, used)
    {
      RunFromNext(c, Progress(startIn, packetLen, responsePacket), arrivals, n, used);
      if arrivals[n].Some? {
        var readBuff := arrivals[n].value;
        used := used + 1;
        if startIn <= |c.start| - 1 {
          if readBuff == c.start[startIn] {
            startIn := startIn + 1;
            responsePacket := responsePacket + [readBuff];
          } else if startIn > 0 {
            startIn := 0;
            responsePacket := [];
          }
        } else if |responsePacket| == c.sizeIndex - 1 {
          packetLen := readBuff as int;
          responsePacket := responsePacket + [readBuff];
        } else {
          if |responsePacket| != packetLen + c.additionalSize {
            responsePacket := responsePacket + [readBuff];
          }
          if |responsePacket| >= packetLen + c.additionalSize {
            return Some(responsePacket), used;
          }
        }
      }
      n := n + 1;
    }
    RunFromStart(c, Progress(startIn, packetLen, responsePacket), arrivals, used);
    result := None;
  }

  // ----- what it returns, for two sync bytes 16 and the Adast layout

  predicate PairAt(stream: seq<Octet>, k: nat) {
    k + 1 < |stream| && stream[k] == 0x16 && stream[k + 1] == 0x16
  }

  ghost predicate FirstPair(stream: seq<Octet>, k: nat) {
    PairAt(stream, k) && forall j :: 0 <= j < k ==> !PairAt(stream, j)
  }

  ghost predicate NoPair(stream: seq<Octet>) { forall j :: 0 <= j < |stream| ==> !PairAt(stream, j) }

  /** The length byte behind the pair at `k`, and the end of the packet. */
  function EndAt(stream: seq<Octet>, k: nat): nat
    requires k + 3 < |stream|
  {
    k + (stream[k + 3] as int) + 7
  }

  const PAIR: seq<Octet> := [0x16, 0x16]

  /** Collecting the rest of a packet whose length is known. */
  lemma {:induction false} Collect(p: Progress, stream: seq<Octet>, used: nat)
    requires p.startIn == 2 && 4 <= |p.response| < p.packetLen + 7
    ensures var missing := p.packetLen + 7 - |p.response|;
            Run(ADAST_CONFIG, p, stream, used)
            == if |stream| < missing then Waiting else Returned(p.response + stream[..missing], used + missing)
    decreases |stream|
  {
    var missing := p.packetLen + 7 - |p.response|;
    if stream != [] {
      var response := p.response + [stream[0]];
      if missing == 1 {
        assert response == p.response + stream[..1];
      } else {
        Collect(p.(response := response), stream[1..], used + 1);
        if |stream| >= missing {
          assert response + stream[1..][..missing - 1] == p.response + stream[..missing];
        }
      }
    }
  }

  lemma AddressByte(byte: Octet, stream: seq<Octet>, used: nat)
    ensures Run(ADAST_CONFIG, Progress(2, 200, PAIR), [byte] + stream, used)
         == Run(ADAST_CONFIG, Progress(2, 200, PAIR + [byte]), stream, used + 1)
  {
    RunNext(ADAST_CONFIG, Progress(2, 200, PAIR), byte, stream, used);
  }

  lemma LengthByte(head: seq<Octet>, byte: Octet, stream: seq<Octet>, used: nat)
    requires |head| == 3
    ensures Run(ADAST_CONFIG, Progress(2, 200, head), [byte] + stream, used)
         == Run(ADAST_CONFIG, Progress(2, byte as int, head + [byte]), stream, used + 1)
  {
    RunNext(ADAST_CONFIG, Progress(2, 200, head), byte, stream, used);
  }

  /** From a sync pair and two more bytes on. */
  lemma AfterHeader(address: Octet, length: Octet, stream: seq<Octet>, used: nat)
    ensures var missing := (length as int) + 3;
            Run(ADAST_CONFIG, Progress(2, 200, PAIR), [address] + ([length] + stream), used)
            == if |stream| < missing then Waiting
               else Returned((PAIR + [address] + [length]) + stream[..missing], used + 2 + missing)
  {
    AddressByte(address, [length] + stream, used);
    LengthByte(PAIR + [address], length, stream, used + 1);
    Collect(Progress(2, length as int, PAIR + [address] + [length]), stream, used + 2);
  }

  lemma TwoTaken(stream: seq<Octet>, n: nat)
    requires |stream| >= 2
    ensures stream == [stream[0]] + ([stream[1]] + stream[2..])
    ensures n + 2 <= |stream| ==> (PAIR + [stream[0]] + [stream[1]]) + stream[2..][..n] == PAIR + stream[..n + 2]
  {
  }

  /** From a sync pair on. */
  lemma AfterPair(stream: seq<Octet>, used: nat)
    ensures Run(ADAST_CONFIG, Progress(2, 200, PAIR), stream, used)
         == if |stream| < 2 || |stream| < (stream[1] as int) + 5 then Waiting
            else Returned(PAIR + stream[..(stream[1] as int) + 5], used + (stream[1] as int) + 5)
  {
    if |stream| == 1 {
      AddressByte(stream[0], [], used);
      assert stream == [stream[0]] + [];
    } else if |stream| >= 2 {
      TwoTaken(stream, (stream[1] as int) + 3);
      AfterHeader(stream[0], stream[1], stream[2..], used);
    }
  }

  lemma StepOver(stream: seq<Octet>, used: nat)
    requires stream != [] && !PairAt(stream, 0)
    ensures Run(ADAST_CONFIG, BEGINNING, stream, used) == Run(ADAST_CONFIG, BEGINNING, stream[1..], used + 1)
  {
    if stream[0] == 0x16 && |stream| > 1 {
      assert [] + [stream[0]] == [0x16];
      assert Run(ADAST_CONFIG, BEGINNING, stream, used) == Run(ADAST_CONFIG, Progress(1, 200, [0x16]), stream[1..], used + 1);
    }
  }

  /** Until the first pair every byte is passed over, and without a pair nothing is ever
      returned. */
  lemma {:induction false} Search(stream: seq<Octet>, k: nat, used: nat)
    requires k <= |stream| && forall j :: 0 <= j < k ==> !PairAt(stream, j)
    ensures Run(ADAST_CONFIG, BEGINNING, stream, used) == Run(ADAST_CONFIG, BEGINNING, stream[k..], used + k)
    decreases k
  {
    if k > 0 {
      StepOver(stream, used);
      forall j | 0 <= j < k - 1 ensures !PairAt(stream[1..], j) {
        assert !PairAt(stream, j + 1);
      }
      Search(stream[1..], k - 1, used + 1);
      assert stream[1..][k - 1..] == stream[k..];
    } else {
      assert stream[0..] == stream;
    }
  }

  lemma FromPair(stream: seq<Octet>, used: nat)
    requires PairAt(stream, 0)
    ensures Run(ADAST_CONFIG, BEGINNING, stream, used) == Run(ADAST_CONFIG, Progress(2, 200, PAIR), stream[2..], used + 2)
  {
    assert [] + [stream[0]] == [0x16];
    assert Run(ADAST_CONFIG, BEGINNING, stream, used) == Run(ADAST_CONFIG, Progress(1, 200, [0x16]), stream[1..], used + 1);
    assert stream[1..][1..] == stream[2..];
    assert [0x16] + [0x16] == PAIR;
  }

  lemma PairThenPacket(tail: seq<Octet>, used: nat)
    requires PairAt(tail, 0)
    ensures Run(ADAST_CONFIG, BEGINNING, tail, used)
         == if |tail| < 4 || |tail| < (tail[3] as int) + 7 then Waiting
            else Returned(tail[..(tail[3] as int) + 7], used + (tail[3] as int) + 7)
  {
    FromPair(tail, used);
    AfterPair(tail[2..], used + 2);
    if |tail| >= 4 && |tail| >= (tail[3] as int) + 7 {
      assert PAIR + tail[2..][..(tail[3] as int) + 5] == tail[..(tail[3] as int) + 7];
    }
  }

  lemma FromFirstPair(stream: seq<Octet>, k: nat)
    requires PairAt(stream, k)
    ensures Run(ADAST_CONFIG, BEGINNING, stream[k..], k)
         == if |stream| < k + 4 || |stream| < EndAt(stream, k) then Waiting
            else Returned(stream[k..EndAt(stream, k)], EndAt(stream, k))
  {
    PairThenPacket(stream[k..], k);
    if |stream| >= k + 4 {
      TailSlice(stream, k, (stream[k + 3] as int) + 7);
    }
  }

  /** Exactly what is returned on any stream: nothing before a pair of sync bytes and a
      complete packet behind it have come in; then the packet, and nothing behind it is
      read. */
  lemma ReturnsFromFirstPair(stream: seq<Octet>, k: nat)
    requires FirstPair(stream, k)
    ensures Run(ADAST_CONFIG, BEGINNING, stream, 0)
         == if |stream| < k + 4 || |stream| < EndAt(stream, k) then Waiting
            else Returned(stream[k..EndAt(stream, k)], EndAt(stream, k))
  {
    Search(stream, k, 0);
    FromFirstPair(stream, k);
  }

  lemma TailSlice(stream: seq<Octet>, k: nat, n: nat)
    requires k <= |stream|
    ensures k + n <= |stream| ==> stream[k..][..n] == stream[k..k + n]
    ensures k + 3 < |stream| ==> stream[k..][3] == stream[k + 3]
  {
  }

  /** Without a pair nothing is ever returned. */
  lemma ReturnsNothing(stream: seq<Octet>)
    requires NoPair(stream)
    ensures Run(ADAST_CONFIG, BEGINNING, stream, 0) == Waiting
  {
    Search(stream, |stream|, 0);
  }

  lemma {:induction false} FindPair(stream: seq<Octet>, at: nat) returns (k: nat)
    requires PairAt(stream, at)
    ensures FirstPair(stream, k)
  {
    k := 0;
    while !PairAt(stream, k)
      invariant k <= at && forall j :: 0 <= j < k ==> !PairAt(stream, j)
      decreases at - k
    {
      k := k + 1;
    }
  }

  // ----- frames in noise

  /** Noise in which a frame cannot be missed. */
  ghost predicate Clean(noise: seq<Octet>) {
    NoPair(noise) && (noise != [] ==> noise[|noise| - 1] != 0x16)
  }

  predicate SyncedFrame(frame: seq<Octet>) { PairAt(frame, 0) && |frame| >= 7 && Delimited(frame) }

  lemma CleanIffFirst(noise: seq<Octet>, frame: seq<Octet>, rest: seq<Octet>)
    requires SyncedFrame(frame)
    ensures Clean(noise) <==> FirstPair(noise + frame + rest, |noise|)
  {
    var s, n := noise + frame + rest, |noise|;
    assert s[n] == frame[0] && s[n + 1] == frame[1];
    assert forall j :: 0 <= j < n ==> s[j] == noise[j];
    assert forall j :: 0 <= j < n - 1 ==> (PairAt(s, j) <==> PairAt(noise, j));
    if n > 0 {
      assert PairAt(s, n - 1) <==> noise[n - 1] == 0x16;
    }
  }

  /** A delimited frame with sync bytes is recovered from behind the noise, whatever follows
      it, if and only if the noise holds no sync pair and does not end in a sync byte. */
  lemma RecoversIff(noise: seq<Octet>, frame: seq<Octet>, rest: seq<Octet>)
    requires SyncedFrame(frame)
    ensures Run(ADAST_CONFIG, BEGINNING, noise + frame + rest, 0) == Returned(frame, |noise| + |frame|) <==> Clean(noise)
  {
    var s, n := noise + frame + rest, |noise|;
    CleanIffFirst(noise, frame, rest);
    assert PairAt(s, n) by {
      assert s[n] == frame[0] && s[n + 1] == frame[1];
    }
    var k := FindPair(s, n);
    ReturnsFromFirstPair(s, k);
    if k == n {
      assert s[n + 3] == frame[3];
      assert s[n..n + |frame|] == frame;
    } else {
      assert k < n;
    }
  }

  lemma AdastFrameSynced(covered: seq<Octet>)
    requires |covered| >= 2 && covered[1] as int == |covered| - 2
    ensures SyncedFrame(Frame(Adast, covered))
  {
    FrameDelimitedIff(covered);
    var f := Frame(Adast, covered);
    assert f[0] == 0x16 && f[1] == 0x16;
  }

  /** A burst on the line: some noise and the covered part of a frame that states its own
      length. */
  datatype Burst = Burst(noise: seq<Octet>, covered: seq<Octet>)

  ghost predicate Sound(b: Burst) {
    Clean(b.noise) && |b.covered| >= 2 && b.covered[1] as int == |b.covered| - 2
  }

  function OnTheLine(bursts: seq<Burst>): seq<Octet> {
    if bursts == [] then [] else bursts[0].noise + Frame(Adast, bursts[0].covered) + OnTheLine(bursts[1..])
  }

  /** What `calls` successive calls return. */
  function Calls(stream: seq<Octet>, calls: nat): seq<Option<seq<Octet>>>
    decreases calls
  {
    if calls == 0 then []
    else
      var outcome := Run(ADAST_CONFIG, BEGINNING, stream, 0);
      if outcome.Waiting? then [None] + Calls([], calls - 1)
      else [Some(outcome.packet)] + Calls(if outcome.used <= |stream| then stream[outcome.used..] else [], calls - 1)
  }

  function FramesOf(bursts: seq<Burst>): seq<Option<seq<Octet>>> {
    if bursts == [] then [] else [Some(Frame(Adast, bursts[0].covered))] + FramesOf(bursts[1..])
  }

  /** Every frame of a noisy line is recovered, in order. */
  lemma {:induction false} LineRecovered(bursts: seq<Burst>)
    requires forall i :: 0 <= i < |bursts| ==> Sound(bursts[i])
    ensures Calls(OnTheLine(bursts), |bursts|) == FramesOf(bursts)
  {
    if bursts != [] {
      AdastFrameSynced(bursts[0].covered);
      NextCall(bursts[0].noise, Frame(Adast, bursts[0].covered), OnTheLine(bursts[1..]), |bursts| - 1);
      LineRecovered(bursts[1..]);
    }
  }

  lemma NextCall(noise: seq<Octet>, frame: seq<Octet>, rest: seq<Octet>, calls: nat)
    requires SyncedFrame(frame) && Clean(noise)
    ensures Calls(noise + frame + rest, calls + 1) == [Some(frame)] + Calls(rest, calls)
  {
    RecoversIff(noise, frame, rest);
    assert (noise + frame + rest)[|noise| + |frame|..] == rest;
  }
}
