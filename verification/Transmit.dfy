/** The transmit half of the driver: the ring of bytes to send, the DMA channel it is sent
    over, and what the driver keeps about the transfers it started. */
module Transmit {
  import opened Pdma
  import opened UserSource

  const EFAULT := 14

  /** The address of the exciter's sample register, where every transfer goes. */
  const SAMPLE: nat := 0

  ghost function Flatten(parts: seq<seq<Byte>>): seq<Byte> {
    if parts == [] then [] else Flatten(parts[..|parts| - 1]) + parts[|parts| - 1]
  }

  lemma FlattenGrows(parts: seq<seq<Byte>>, part: seq<Byte>)
    ensures Flatten(parts + [part]) == Flatten(parts) + part
  {
    assert (parts + [part])[..|parts|] == parts;
  }

  lemma SplitQueue(sent: seq<Byte>, q: seq<Byte>, n: nat)
    requires n <= |q|
    ensures sent + q == (sent + q[..n]) + q[n..]
  {
  }

  lemma WholeCount(count: nat)
    requires Aligned(count)
    ensures Words(count) == count
  {
  }

  lemma WholeWords(n: nat, frame: nat)
    requires Aligned(n)
    ensures (n / 4 == 0 <==> n == 0) && 4 * frame / 4 == frame
    ensures Aligned(Least(n, 4 * frame))
  {
  }

  /** What the outside decides about one attempt to start a transfer. */
  datatype Attempt = Attempt(busy: bool, mapFails: bool)

  class Transmitter {
    const source: UserSource
    const tx: Channel
    const frameSize: nat
    const autoTx: bool
    const pingPongMode: int
    var dmaCount: seq<nat>
    var statsBytes: nat
    var txEnabled: bool
    var almostFull: bool
    var txStopping: bool

    ghost var written: seq<Byte>
    ghost var handed: seq<seq<Byte>>
    ghost var completed: nat
    ghost var cleared: nat

    ghost function Bytes(slot: Slot): nat
      requires |tx.buf| == |dmaCount| == 2
      reads this, tx
    {
      if tx.buf[slot].started then dmaCount[slot] else 0
    }

    /** The bytes of the regions in started slots. */
    ghost function InFlight(): nat
      requires |tx.buf| == |dmaCount| == 2
      reads this, tx
    {
      Bytes(0) + Bytes(1)
    }

    ghost predicate Parts()
      reads this, source, tx
    {
      source.Valid() && tx.Valid() && tx.inUse && |dmaCount| == 2
    }

    /** Bytes leave the ring only by being handed to the channel, in the order they came. */
    ghost predicate InOrder()
      requires Parts()
      reads this, source, source.data, tx
    {
      written == Flatten(handed) + source.Queue()
    }

    /** No byte is lost or counted twice. */
    ghost predicate Conserved()
      requires Parts()
      reads this, source, source.data, tx
    {
      |written| == |source.Queue()| + InFlight() + completed + cleared
    }

    ghost predicate Valid()
      reads this, source, source.data, tx
    {
      Parts() && InOrder() && Conserved()
    }

    constructor (order: nat, frameSize: nat, autoTx: bool, pingPongMode: int)
      requires order >= 2
      ensures Valid() && written == [] && handed == [] && source.Queue() == [] && tx.Pending() == 0
      ensures fresh(source) && fresh(source.data) && fresh(tx) && source.order == order && source.head == 0
    {
      var s := new UserSource(order);
      var c := new Channel();
      var ret := c.Request(pingPongMode);
      source, tx, dmaCount := s, c, [0, 0];
      this.frameSize, this.autoTx, this.pingPongMode := frameSize, autoTx, pingPongMode;
      statsBytes, txEnabled, almostFull, txStopping := 0, false, false, false;
      written, handed, completed, cleared := [], [], 0, 0;
    }

    /** `tx_start` and the clearing control call: whatever was in flight is dropped. */
    method ClearChannel()
      requires Valid()
      modifies this`cleared, tx
      ensures Valid() && tx.Pending() == 0 && cleared == old(cleared) + old(InFlight())
      ensures old(tx.Pending()) == 0 ==> cleared == old(cleared)
    {
      cleared := cleared + InFlight();
      tx.Clear(pingPongMode);
    }

    /** How many bytes the channel can take. */
    method SpaceAvailable() returns (count: nat)
      requires Valid()
      modifies tx`device, tx`pingPong, tx`writes
      ensures Valid() && count == if tx.Pending() < 2 then 4 * frameSize else 0
    {
      var free := tx.BuffersAvailable();
      count := if free > 0 then 4 * frameSize else 0;
    }

    /** The size of the region an attempt would hand over. */
    ghost function Region(): nat
      requires Parts()
      reads this, source, source.data, tx
    {
      Least(Least(|source.Queue()|, source.size - source.tail), if tx.Pending() < 2 then 4 * frameSize else 0)
    }

    /** One more region has been handed to the channel. */
    twostate predicate HandsOver(n: nat)
      requires old(Parts()) && Parts() && n <= old(|source.Queue()|)
      reads this, source, source.data, tx
    {
      && handed == old(handed) + [old(source.Queue())[..n]]
      && source.Queue() == old(source.Queue())[n..]
      && tx.accepted == old(tx.accepted) + [Transfer(old(source.tail), SAMPLE, n / 4 % 0x1_0000)]
      && dmaCount == old(dmaCount)[old(|tx.accepted|) % 2 := n]
      && (frameSize < 0x1_0000 || source.size <= 0x4_0000 ==> 4 * tx.accepted[|tx.accepted| - 1].count == n)
    }

    /** Starts the channel; the slot that was free now counts `count` bytes. */
    method Launch(src: nat, count: nat) returns (slot: Slot)
      requires Parts() && tx.Pending() < 2
      modifies this`dmaCount, tx
      ensures Parts() && InFlight() == old(InFlight()) + count
      ensures slot == old(|tx.accepted|) % 2 && dmaCount == old(dmaCount)[slot := count]
      ensures tx.accepted == old(tx.accepted) + [Transfer(src, SAMPLE, count / 4 % 0x1_0000)]
    {
      slot := tx.Start(src, SAMPLE, count / 4 % 0x1_0000);
      dmaCount := dmaCount[slot := count];
    }

    /** Hands the region over. */
    method Hand(src: nat, count: nat)
      requires Valid() && tx.Pending() < 2 && src == source.tail && Aligned(count)
      requires count <= Least(|source.Queue()|, source.size - source.tail) && count <= 4 * frameSize
      modifies this`dmaCount, this`handed, this`txEnabled, source`tail, tx
      ensures Valid() && HandsOver(count)
    {
      hide Flatten, Queued, Aligned, Words, Indices;
      assert count <= source.size - 4;
      TransferCovers(count);
      var slot := Launch(src, count);
      if autoTx && almostFull && !txEnabled { txEnabled := true; }
      Take(count);
    }

    /** Moves the region from the ring to the regions handed over. */
    method Take(count: nat)
      requires Parts() && InOrder() && Aligned(count)
      requires count <= Least(|source.Queue()|, source.size - source.tail)
      modifies this`handed, source`tail
      ensures Parts() && InOrder() && handed == old(handed) + [old(source.Queue())[..count]]
      ensures source.Queue() == old(source.Queue())[count..]
    {
      hide Flatten, Queued, Aligned, Words, Indices;
      ghost var region := source.Queue()[..count];
      FlattenGrows(handed, region);
      SplitQueue(Flatten(handed), source.Queue(), count);
      WholeCount(count);
      source.Consume(count);
      handed := handed + [region];
    }

    /** Starts a transfer of the region when there is something to send and a slot for it. */
    method Exec(env: Attempt) returns (result: int)
      requires Valid()
      modifies this`dmaCount, this`handed, this`txEnabled, source`tail, tx
      ensures Valid()
      ensures result == if env.busy then -EBUSY else if old(Region()) == 0 then 0 else if env.mapFails then -EFAULT else 0
      ensures if env.busy || env.mapFails || old(Region()) == 0
        then handed == old(handed) && tx.accepted == old(tx.accepted) && tx.Pending() == old(tx.Pending()) && source.Queue() == old(source.Queue())
        else HandsOver(old(Region()))
    {
      if env.busy { return -EBUSY; }
      var srcCount, src := source.DataAvailable();
      var destCount := SpaceAvailable();
      WholeWords(srcCount, frameSize);
      assert Least(srcCount, destCount) == old(Region());
      hide Aligned, Flatten, Queued, Least, Indices;
      if srcCount / 4 == 0 || destCount / 4 == 0 { return 0; }
      var count := Least(srcCount, destCount);
      if env.mapFails { return -EFAULT; }
      Hand(src, count);
      result := 0;
    }

    /** The channel's callback: one slot's bytes enter the statistics, and the next transfer is
        tried. */
    method Callback(slot: Slot, env: Attempt)
      requires Valid()
      modifies this`dmaCount, this`handed, this`txEnabled, this`statsBytes, source`tail, tx
      ensures Valid() && statsBytes == old(statsBytes) + old(dmaCount[slot])
      ensures if env.busy || env.mapFails || old(Region()) == 0
        then handed == old(handed) && tx.Pending() == old(tx.Pending()) && source.Queue() == old(source.Queue())
        else HandsOver(old(Region()))
    {
      statsBytes := statsBytes + dmaCount[slot];
      var result := Exec(env);
    }

    /** The bytes of the slots that the device reports complete. */
    ghost function Reported(): nat
      requires |tx.buf| == |dmaCount| == |tx.complete| == 2
      reads this, tx
    {
      (if tx.complete[0] then Bytes(0) else 0) + (if tx.complete[1] then Bytes(1) else 0)
    }

    method Acknowledge() returns (done: int)
      requires Valid()
      modifies this`completed, tx`complete, tx`buf, tx`acked
      ensures Valid() && -1 <= done < 2 && (done >= 0 <==> old(tx.complete[0] || tx.complete[1]))
      ensures done >= 0 ==> tx.Pending() < 2 && old(tx.Pending()) > 0
      ensures done < 0 ==> tx.Pending() == old(tx.Pending())
      ensures completed == old(completed) + old(Reported())
    {
      completed := completed + (if tx.complete[0] then Bytes(0) else 0) + (if tx.complete[1] then Bytes(1) else 0);
      done := tx.Acknowledge();
    }

    /** The region the next attempt would hand over, were a slot free. */
    ghost function NextRegion(): nat
      requires Parts()
      reads this, source, source.data, tx
    {
      Least(Least(|source.Queue()|, source.size - source.tail), 4 * frameSize)
    }

    /** The interrupt handler, as far as it concerns this channel: the bytes reported complete
        are counted, and if there were any, the next region is handed over. */
    method Interrupt(env: Attempt)
      requires Valid()
      modifies this`dmaCount, this`handed, this`txEnabled, this`statsBytes, this`completed, source`tail, tx
      ensures Valid() && completed == old(completed) + old(Reported())
      ensures var n := old(NextRegion());
        if old(tx.complete[0] || tx.complete[1]) && !env.busy && !env.mapFails && n > 0
        then handed == old(handed) + [old(source.Queue())[..n]] && source.Queue() == old(source.Queue())[n..]
        else handed == old(handed) && source.Queue() == old(source.Queue())
      ensures old(tx.Pending()) == 0 ==> tx.Pending() == 0 && handed == old(handed)
    {
      var done := Acknowledge();
      hide Queued, Flatten, Aligned, Indices, Words;
      if done >= 0 {
        assert Region() == old(NextRegion());
        Callback(done, env);
      }
    }

    /** The exciter's own doing. */
    method SetFlags(enabled: bool, full: bool)
      requires Valid()
      modifies this`txEnabled, this`almostFull
      ensures Valid() && txEnabled == enabled && almostFull == full
    {
      txEnabled, almostFull := enabled, full;
    }

    method HardwareFinish()
      requires Valid()
      modifies tx`complete, tx`finished
      ensures Valid()
    {
      tx.HardwareFinish();
    }

    /** Asks the exciter to stop once both slots are stopped. */
    method Stop() returns (ret: int)
      requires Valid()
      modifies this`txStopping, tx`device, tx`pingPong, tx`writes
      ensures Valid() && ret == if tx.Pending() == 0 then 0 else -1
      ensures txStopping == (old(txStopping) || ret == 0)
    {
      var free := tx.BuffersAvailable();
      if free < 2 { return -1; }
      txStopping := true;
      ret := 0;
    }

    /** Copies the writer's bytes behind the queue; a writer who has mapped the ring has put them
        there. */
    method Copy(src: seq<Byte>, dest: nat, destCount: nat, mapped: bool, fault: bool, part: nat) returns (ret: int)
      requires Valid() && dest == source.head
      requires destCount <= Least(source.size - 4 - |source.Queue()|, source.size - dest)
      modifies source.data
      ensures Valid() && source.Queue() == old(source.Queue())
      ensures ret == if !mapped && fault then -EFAULT else Least(|src|, destCount)
      ensures ret >= 0 ==> source.data[dest..dest + ret] == if mapped then old(source.data[dest..dest + ret]) else src[..ret]
    {
      ret := source.Work(src, dest, destCount, mapped, fault, part);
    }

    /** The whole words among the copied bytes join the written stream. */
    method Produce(count: nat)
      requires Valid() && count <= Least(source.size - 4 - |source.Queue()|, source.size - source.head)
      modifies this`written, source`head, source`off
      ensures Valid() && written == old(written) + source.data[old(source.head)..old(source.head) + Words(count)]
      ensures source.off == old(source.off) + count
    {
      hide Flatten, Queued, Aligned, Words, Indices;
      ghost var more := source.data[source.head..source.head + Words(count)];
      written := written + more;
      source.Produce(count);
    }
  }

  /** The words the channel is told to move are the region mapped for it exactly when they fit
      its sixteen-bit counter. */
  lemma TransferCovers(n: nat)
    requires Aligned(n)
    ensures 4 * (n / 4 % 0x1_0000) == n <==> n < 0x4_0000
  {
  }

  /** A ring of `size` bytes never hands over a region the counter cannot hold, exactly when
      the configured frame fits the counter or the ring is no larger than what it can count. */
  lemma TransfersAreWhole(size: nat, frameSize: nat)
    requires Aligned(size) && size >= 4
    ensures frameSize < 0x1_0000 || size <= 0x4_0000 <==>
      forall available: nat :: Aligned(available) && available <= size - 4 ==>
        var n := Least(available, 4 * frameSize); 4 * (n / 4 % 0x1_0000) == n
  {
    forall available: nat | Aligned(available)
      ensures var n := Least(available, 4 * frameSize); 4 * (n / 4 % 0x1_0000) == n <==> n < 0x4_0000
    {
      WholeWords(available, frameSize);
      TransferCovers(Least(available, 4 * frameSize));
    }
    assert Aligned(0x4_0000);
    if frameSize >= 0x1_0000 && size > 0x4_0000 { assert Least(0x4_0000, 4 * frameSize) == 0x4_0000; }
  }
}
