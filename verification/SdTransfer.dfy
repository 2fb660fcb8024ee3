/** The data half of drivers/devices/SD/SD.c: block reads and writes that move words between RAM,
    the SDIO FIFO and the card.  A RAM address is an index into `ram`; `store` is what the card holds. */
module SdTransfer {
  import opened Common
  import opened SdResponses
  import opened SdTrace
  import opened SdProtocol
  import opened SdioFifo
  import opened ByteStore

  /** No object is as long as INT_MAX; the STM32F407 has 192 KiB. */
  const RAM_LIMIT: nat := 0x8000_0000

  class SdDriver {
    const host: SdHost
    const hw: Sdio
    const ram: array<bv8>
    const byteAddressed: bool   // the card takes byte addresses (SDSC)
    const blocks: nat           // how many blocks it has
    var store: seq<bv8>
    ghost var calls: seq<bool>  // the block requests made so far: which succeeded

    /** The driver knows the card type.  Of the flags any may be up, but on prompt hardware no end flag. */
    ghost predicate Valid()
      reads this, host, hw
    {
      && host.Valid()
      && (host.version == CARD_SDSC <==> byteAddressed)
      && hw.Settled()
      && |store| == BLOCK * blocks
      && ram.Length < RAM_LIMIT
    }

    constructor (host: SdHost, ram: array<bv8>, byteAddressed: bool, blocks: nat, contents: seq<bv8>, prompt: bool)
      requires ram.Length < RAM_LIMIT && host.Valid() && (host.version == CARD_SDSC <==> byteAddressed) &&
        |contents| == BLOCK * blocks
      ensures Valid() && fresh(hw) && STBITERR !in hw.flags && hw.misled == 0
      ensures hw.NoDataEndToCome() && hw.NoBlockEndToCome() && hw.prompt == prompt
      ensures this.host == host && this.ram == ram && this.byteAddressed == byteAddressed && store == contents
    {
      this.host, this.ram, this.byteAddressed, this.blocks, store := host, ram, byteAddressed, blocks, contents;
      hw := new Sdio(prompt);
      calls := [];
    }

    /** The block of the card that a request for `block` reaches.  For a byte-addressed card the driver
        multiplies by 512 in 32 bits. */
    ghost function TargetBlock(block: nat): nat {
      if byteAddressed then Low23(block) else block
    }

    /** The low 23 bits of a block number. */
    static ghost function Low23(block: nat): (low: nat)
      ensures low < 0x80_0000
      ensures block < 0x80_0000 ==> low == block
    {
      if block < 0x80_0000 then block else Low23(block - 0x80_0000)
    }

    /** Its first byte. */
    ghost function Target(block: nat): nat {
      BLOCK * TargetBlock(block)
    }

    /** A request reaches the block it names exactly when the card takes block addresses or the block
        lies in the first 4 GiB. */
    lemma TargetIsBlock(block: nat)
      ensures Target(block) == BLOCK * block <==> !byteAddressed || block < 0x80_0000
    {
    }

    /** The 32-bit product names a block of the first 4 GiB. */
    static lemma {:induction false} ByteAddress(block: nat)
      ensures (block * 512) % UINT32 == BLOCK * Low23(block)
    {
      if block >= 0x80_0000 {
        ByteAddress(block - 0x80_0000);
        ModStep(block * 512);
      } else {
        ModSmall(block * 512);
      }
    }

    static lemma ModStep(x: nat)
      requires x >= UINT32
      ensures x % UINT32 == (x - UINT32) % UINT32
    {
    }

    static lemma ModSmall(x: nat)
      requires x < UINT32
      ensures x % UINT32 == x
    {
    }

    /** The block of the card a command for `block` addresses, and the word that goes on the line. */
    method Address(block: nat) returns (b: nat, address: bv32)
      requires Valid() && block < UINT32
      ensures b == TargetBlock(block)
      ensures address == (if byteAddressed then 512 * block % 0x1_0000_0000 else block) as bv32
    {
      var a := if host.version == CARD_SDSC then (block * 512) % UINT32 else block;
      ByteAddress(block);
      b := if byteAddressed then a / BLOCK else a;
      address := a as bv32;
    }

    /** RAM outside [lo, hi) is what it was. */
    twostate predicate Untouched(lo: nat, hi: nat)
      reads ram
    {
      forall a :: 0 <= a < ram.Length && !(lo <= a < hi) ==> ram[a] == old(ram[a])
    }

    /** A data command and its R1 answer. */
    method Command(cmd: nat, address: bv32) returns (status: int)
      requires host.Valid() && !Addressed(cmd) && cmd != CMD_GO_IDLE_STATE && cmd != CMD_SEND_RELATIVE_ADDR
      modifies host`trace, host`rcas, host`state
      ensures host.Valid() && status <= 0
      ensures Orders(host.trace) == Orders(old(host.trace)) + [Sent(cmd, address)]
      ensures status != 0 ==> Refuses(host.trace)
    {
      host.Send(cmd, address);
      var reply;
      status, reply := host.Resp1(cmd);
      OrdersExchange(old(host.trace), Sent(cmd, address), Got(cmd, reply));
      assert host.trace == old(host.trace) + [Sent(cmd, address), Got(cmd, reply)];
    }

    /** CMD12 and its R1b answer. */
    method Stop() returns (status: int)
      requires host.Valid()
      modifies host`trace, host`rcas, host`state
      ensures host.Valid()
      ensures Orders(host.trace) == Orders(old(host.trace)) + [Sent(12, 0)]
      ensures status != 0 ==> Refuses(host.trace)
    {
      host.Send(CMD_STOP_TRANSMISSION, 0);
      OrdersSnoc(old(host.trace), Sent(CMD_STOP_TRANSMISSION, 0));
      var reply;
      status, reply := host.Resp1b(CMD_STOP_TRANSMISSION);
    }

    method WaitReady() returns (status: int)
      requires host.Valid()
      modifies host`trace, host`rcas, host`state
      ensures host.Valid()
      ensures Orders(host.trace) == Orders(old(host.trace))
      ensures if status == 0 then SaysReady(host.trace) else Refuses(host.trace)
    {
      status := host.WaitCardReady();
    }

    static lemma Chain(given: seq<Event>, mid: seq<Event>, now: seq<Event>, first: seq<Event>, rest: seq<Event>)
      requires mid == given + first && mid <= now <= mid + rest
      ensures given <= now <= given + (first + rest)
      ensures now == mid + rest ==> now == given + (first + rest)
    {
      assert mid + rest == given + (first + rest);
    }

    /** The orders given since are these, all of them when the call succeeded. */
    twostate predicate Ordered(done: bool, orders: seq<Event>)
      reads host
    {
      var given := Orders(old(host.trace));
      && given <= Orders(host.trace) <= given + orders
      && (done ==> Orders(host.trace) == given + orders)
    }

    // ---------- read ----------

    /** The RAM from `buffer` on holds what the host took from the FIFO. */
    ghost predicate Stored(buffer: nat)
      reads hw, ram
    {
      && hw.Valid() && hw.reading
      && buffer + hw.length <= ram.Length
      && ram[buffer..buffer + |hw.got|] == hw.got
    }

    /** A read into RAM from `buffer` on that has not yet taken a word. */
    ghost predicate Begun(buffer: nat, length: nat)
      reads hw
    {
      && hw.Valid() && hw.reading && hw.got == []
      && hw.length == length && buffer + length <= ram.Length
    }

    /** At every point of a read, whatever the hardware did in between: the words in the buffer, then
        the FIFO, then what the card still holds, are the card's data in order. */
    lemma NothingLost(buffer: nat)
      requires Stored(buffer)
      ensures ram[buffer..buffer + |hw.got|] + hw.fifo + hw.pending == hw.source
      ensures |hw.got| <= hw.length
    {
    }

    method StoreWord(at: nat, w: seq<bv8>)
      requires |w| == WORD && at + WORD <= ram.Length
      modifies ram
      ensures ram[at..at + WORD] == w && Untouched(at, at + WORD)
    {
      ram[at], ram[at + 1], ram[at + 2], ram[at + 3] := w[0], w[1], w[2], w[3];
    }

    /** *temp_buff++ = SDIO->FIFO */
    method PopWord(ghost buffer: nat, at: nat)
      requires Stored(buffer) && hw.fifo != [] && at == buffer + |hw.got|
      modifies hw`got, hw`fifo, hw`pending, hw`taken, hw`flags, hw`ends, ram
      ensures Stored(buffer) && |hw.got| == |old(hw.got)| + WORD
      ensures hw.Progressed()
      ensures |hw.fifo| + WORD >= |old(hw.fifo)|
      ensures at + WORD <= buffer + hw.length && Untouched(buffer, buffer + hw.length)
    {
      var w := hw.ReadFifo();
      StoreWord(at, w);
      assert ram[buffer..at] == old(ram[buffer..at]);
      CutRam(ram, buffer, at, at + WORD);
    }

    method PopEight(ghost buffer: nat, from: nat) returns (at: nat)
      requires Stored(buffer) && |hw.fifo| >= HALF_BYTES && from == buffer + |hw.got|
      modifies hw`got, hw`fifo, hw`pending, hw`taken, hw`flags, hw`ends, ram
      ensures Stored(buffer) && at == buffer + |hw.got| == from + HALF_BYTES <= buffer + hw.length
      ensures hw.Progressed()
      ensures Untouched(buffer, buffer + hw.length)
    {
      at := from;
      for i := 0 to 8
        invariant Stored(buffer) && at == buffer + |hw.got| == from + WORD * i <= buffer + hw.length
        invariant |hw.fifo| + WORD * i >= HALF_BYTES
        invariant hw.Progressed()
        invariant Untouched(buffer, buffer + hw.length)
      {
        PopWord(buffer, at);
        at := at + WORD;
      }
    }

    /** SDIO->STA read during a transfer into RAM. */
    method Poll(ghost buffer: nat) returns (sta: Sta)
      requires Stored(buffer)
      modifies hw`fifo, hw`pending, hw`taken, hw`flags, hw`ends, hw`timer
      ensures Stored(buffer) && |hw.fifo| >= |old(hw.fifo)|
      ensures sta.flags == hw.flags && hw.Progressed()
      ensures sta.rxHalfFull == (|hw.fifo| >= HALF_BYTES)
      ensures sta.rxFull == (|hw.fifo| == FIFO_BYTES)
      ensures sta.rxAvail == (hw.fifo != [])
      ensures if old(hw.timer) == 0 then DTIMEOUT in hw.flags && hw.timer == 0 else hw.timer == old(hw.timer) - 1
    {
      sta := hw.ReadSta();
    }

    /** The body of the read loop of read_multi_block_sd. */
    method ReceiveSome(ghost buffer: nat, from: nat, remaining: nat) returns (at: nat, dataRemaining: nat)
      requires Stored(buffer) && from == buffer + |hw.got| && remaining == hw.length - |hw.got|
      modifies hw`got, hw`fifo, hw`pending, hw`taken, hw`flags, hw`ends, hw`timer, ram
      ensures Stored(buffer) && at == buffer + |hw.got| && dataRemaining == hw.length - |hw.got|
      ensures hw.Progressed() && hw.timer <= old(hw.timer)
      ensures Untouched(buffer, buffer + hw.length)
      ensures || |hw.got| == |old(hw.got)| + HALF_BYTES
              || (hw.got == old(hw.got) && (|hw.fifo| < HALF_BYTES || remaining == 0))
    {
      at, dataRemaining := from, remaining;
      var sta := Poll(buffer);
      if sta.rxHalfFull && dataRemaining > 0 {
        at := PopEight(buffer, at);
        dataRemaining := dataRemaining - HALF_BYTES;
      }
    }

    /** The read loop of read_multi_block_sd: eight words whenever the FIFO is half full. */
    method ReceiveHalves(buffer: nat, length: nat) returns (at: nat, dataRemaining: nat)
      requires Begun(buffer, length)
      modifies hw`got, hw`fifo, hw`pending, hw`taken, hw`flags, hw`ends, hw`timer, ram
      ensures Stored(buffer) && at == buffer + |hw.got| && dataRemaining == length - |hw.got|
      ensures MultiReadEnds(hw.flags) && hw.Progressed()
      ensures MultiReadEnds(old(hw.flags)) ==> hw.got == []
      ensures old(hw.ends) == NO_ENDS && hw.before == old(hw.flags) ==> EndsWith(hw.before, hw.ends, hw.flags)
      ensures ReadPasses(hw.flags) && DATAEND !in hw.before ==> hw.ends.data
      ensures Untouched(buffer, buffer + length)
    {
      at, dataRemaining := buffer, length;
      var sta := Poll(buffer);
      while !MultiReadEnds(sta.flags)
        invariant Stored(buffer) && at == buffer + |hw.got|
        invariant dataRemaining == length - |hw.got|
        invariant sta.flags == hw.flags && hw.Progressed()
        invariant MultiReadEnds(old(hw.flags)) ==> hw.got == []
        invariant Untouched(buffer, buffer + length)
        decreases !MultiReadEnds(sta.flags), hw.timer
      {
        at, dataRemaining := ReceiveSome(buffer, at, dataRemaining);
        sta := Poll(buffer);
      }
      ReadChecksAreComplete(hw.flags);
    }

    /** The body of the read loop of read_single_block_sd. */
    method ReceiveWord(ghost buffer: nat, from: nat) returns (at: nat)
      requires Stored(buffer) && from == buffer + |hw.got|
      modifies hw`got, hw`fifo, hw`pending, hw`taken, hw`flags, hw`ends, hw`timer, ram
      ensures Stored(buffer) && at == buffer + |hw.got|
      ensures hw.Progressed() && hw.timer <= old(hw.timer)
      ensures Untouched(buffer, buffer + hw.length)
      ensures |hw.got| == |old(hw.got)| + WORD || (hw.got == old(hw.got) && |hw.fifo| < FIFO_BYTES)
    {
      at := from;
      var sta := Poll(buffer);
      if sta.rxFull {
        PopWord(buffer, at);
        at := at + WORD;
      }
    }

    /** The read loop of read_single_block_sd: one word whenever the FIFO is full. */
    method ReceiveFull(buffer: nat) returns (at: nat)
      requires Begun(buffer, BLOCK)
      modifies hw`got, hw`fifo, hw`pending, hw`taken, hw`flags, hw`ends, hw`timer, ram
      ensures Stored(buffer) && at == buffer + |hw.got|
      ensures SingleReadEnds(hw.flags) && hw.Progressed()
      ensures SingleReadEnds(old(hw.flags)) ==> hw.got == []
      ensures old(hw.ends) == NO_ENDS && hw.before == old(hw.flags) ==> EndsWith(hw.before, hw.ends, hw.flags)
      ensures Untouched(buffer, buffer + BLOCK)
    {
      at := buffer;
      var sta := Poll(buffer);
      while !SingleReadEnds(sta.flags)
        invariant Stored(buffer) && at == buffer + |hw.got|
        invariant sta.flags == hw.flags && hw.Progressed()
        invariant SingleReadEnds(old(hw.flags)) ==> hw.got == []
        invariant Untouched(buffer, buffer + BLOCK)
        decreases !SingleReadEnds(sta.flags), hw.timer
      {
        at := ReceiveWord(buffer, at);
        sta := Poll(buffer);
      }
    }

    /** The drain after the loop, bounded by data_remaining (multi) or only by RXDAVL (single). */
    method Drain(buffer: nat, from: nat, bounded: bool, remaining: nat)
      requires Stored(buffer) && from == buffer + |hw.got|
      requires bounded ==> remaining == hw.length - |hw.got|
      modifies hw`got, hw`fifo, hw`pending, hw`taken, hw`flags, hw`ends, hw`timer, ram
      ensures Stored(buffer) && hw.Progressed()
      ensures old(hw.Arrived()) == hw.length ==> |hw.got| == hw.length == |hw.source|
      ensures hw.fifo == [] || (bounded && |hw.got| == hw.length)
      ensures Untouched(buffer, buffer + hw.length)
    {
      var at, dataRemaining := from, remaining;
      var sta := Poll(buffer);
      while sta.rxAvail && (!bounded || dataRemaining > 0)
        invariant Stored(buffer) && at == buffer + |hw.got|
        invariant sta.rxAvail == (hw.fifo != [])
        invariant hw.Arrived() >= old(hw.Arrived())
        invariant bounded ==> dataRemaining == hw.length - |hw.got|
        invariant hw.Progressed()
        invariant Untouched(buffer, buffer + hw.length)
        decreases hw.length - |hw.got|
      {
        PopWord(buffer, at);
        at := at + WORD;
        if bounded {
          dataRemaining := dataRemaining - WORD;
        }
        sta := Poll(buffer);
      }
    }

    /** The bytes the card can send for a request of `count` blocks from block b on. */
    function Readable(b: nat, count: nat): (d: seq<bv8>)
      reads this
      requires |store| == BLOCK * blocks
      ensures |d| <= BLOCK * count && |d| % WORD == 0
      ensures |d| == BLOCK * count && count > 0 ==> b + count <= blocks && d == store[BLOCK * b..BLOCK * (b + count)]
    {
      var end := if b + count <= blocks then b + count else blocks;
      if b >= blocks then [] else
        WholeWords(end - b);
        store[BLOCK * b..BLOCK * end]
    }

    static lemma WholeWords(count: nat)
      ensures (BLOCK * count) % WORD == 0 && (BLOCK * count) % HALF_BYTES == 0
    {
      assert BLOCK * count == WORD * (128 * count);
      assert BLOCK * count == HALF_BYTES * (16 * count);
    }

    /** The four error checks after a read loop, each with its own reading of STA. */
    method CheckReadErrors(ghost buffer: nat) returns (status: int)
      requires Stored(buffer)
      modifies hw`fifo, hw`pending, hw`taken, hw`flags, hw`ends, hw`cleared, hw`timer
      ensures status == 0 ==>
                && ReadPasses(old(hw.flags)) && hw.Progressed()
                && Stored(buffer) && |hw.fifo| >= |old(hw.fifo)|
      ensures status != 0 ==> hw.Settled() && !ReadPasses(hw.cleared)
      ensures status == 0 || status == -133 || status == -132 || status == -131
      ensures status == -133 ==> DTIMEOUT in hw.cleared || DCRCFAIL in hw.cleared
      ensures status == -132 ==> RXOVERR in hw.cleared
      ensures status == -131 ==> STBITERR in hw.cleared
      ensures STBITERR in old(hw.flags) ==> STBITERR in hw.flags
    {
      var sta := Poll(buffer);
      if DTIMEOUT in sta.flags {
        hw.ClearDataFlags();
        return ERROR_WAIT_TIME;
      }
      sta := Poll(buffer);
      if DCRCFAIL in sta.flags {
        hw.ClearDataFlags();
        return ERROR_WAIT_TIME;
      }
      sta := Poll(buffer);
      if RXOVERR in sta.flags {
        hw.ClearDataFlags();
        return ERROR_RXOVERR;
      }
      sta := Poll(buffer);
      if STBITERR in sta.flags {
        hw.ClearDataFlags();
        return ERROR_START_BIT;
      }
      status := 0;
    }

    /** The end of both reads: error checks, drain, clear_flags_sdio. */
    method FinishRead(buffer: nat, at: nat, bounded: bool, remaining: nat) returns (status: int)
      requires Stored(buffer) && at == buffer + |hw.got|
      requires bounded ==> remaining == hw.length - |hw.got|
      modifies hw`got, hw`fifo, hw`pending, hw`taken, hw`flags, hw`ends, hw`cleared, hw`timer, ram
      ensures hw.Settled() && Untouched(buffer, buffer + hw.length)
      ensures STBITERR in old(hw.flags) ==> STBITERR in hw.flags && status != 0
      ensures if status == 0 then ReadPasses(old(hw.flags)) else !ReadPasses(hw.cleared)
      ensures status == 0 && old(hw.Arrived()) == hw.length ==>
                |hw.source| == hw.length && ram[buffer..buffer + hw.length] == hw.source
      ensures status == 0 && old(hw.ends).data ==> hw.NoDataEndToCome()
      ensures status == 0 && BLOCK * (old(hw.ends).blocks + 1) > hw.length ==> hw.NoBlockEndToCome()
    {
      status := CheckReadErrors(buffer);
      if status != 0 {
        return;
      }
      Drain(buffer, at, bounded, remaining);
      hw.ClearDataFlags();
    }

    /** The end of the loop of read_multi_block_sd: CMD12 if the data ended. */
    method StopReading(ghost buffer: nat) returns (status: int)
      requires host.Valid() && Stored(buffer)
      modifies host`trace, host`rcas, host`state, hw`fifo, hw`pending, hw`taken, hw`flags, hw`ends, hw`cleared, hw`timer
      ensures host.Valid() && (status != 0 ==> hw.Settled() && Refuses(host.trace))
      ensures Ordered(status == 0 && DATAEND in old(hw.flags), [Sent(12, 0)])
      ensures STBITERR in old(hw.flags) ==> STBITERR in hw.flags
      ensures status == 0 ==>
                && Stored(buffer) && |hw.fifo| >= |old(hw.fifo)|
                && hw.Progressed()
    {
      var sta := Poll(buffer);
      status := 0;
      if DATAEND in sta.flags {
        status := Stop();
        if status != 0 {
          hw.ClearDataFlags();
          status := -1;
        }
      }
    }

    /** read_multi_block_sd from the read loop on. */
    method ReceiveMulti(buffer: nat, length: nat) returns (status: int)
      requires host.Valid() && Begun(buffer, length) && hw.before == hw.flags
      modifies host`trace, host`rcas, host`state,
        hw`got, hw`fifo, hw`pending, hw`taken, hw`flags, hw`ends, hw`cleared, hw`timer, ram
      ensures host.Valid() && hw.Settled() && Untouched(buffer, buffer + length)
      ensures Ordered(status == 0, [Sent(12, 0)])
      ensures status != 0 ==> Refuses(host.trace) || !ReadPasses(hw.cleared)
      ensures STBITERR in old(hw.flags) ==> STBITERR in hw.flags && status != 0
      ensures status == 0 && DATAEND !in hw.before ==>
                |hw.source| == length && ram[buffer..buffer + length] == hw.source && hw.NoDataEndToCome()
    {
      var at, dataRemaining := ReceiveHalves(buffer, length);
      status := StopReading(buffer);
      if status == 0 {
        assert ReadPasses(hw.flags) && DATAEND !in hw.before ==> hw.ends.data && hw.Arrived() == length;
        status := FinishRead(buffer, at, true, dataRemaining);
      }
    }

    /** read_single_block_sd from the read loop on. */
    method ReceiveSingle(buffer: nat) returns (status: int)
      requires Begun(buffer, BLOCK) && hw.before == hw.flags
      modifies hw`got, hw`fifo, hw`pending, hw`taken, hw`flags, hw`ends, hw`cleared, hw`timer, ram
      ensures hw.Settled() && Untouched(buffer, buffer + BLOCK)
      ensures status != 0 ==> !ReadPasses(hw.cleared)
      ensures STBITERR in old(hw.flags) ==> STBITERR in hw.flags && status != 0
      ensures status == 0 && DBCKEND !in hw.before ==>
                |hw.source| == BLOCK && ram[buffer..buffer + BLOCK] == hw.source && hw.NoBlockEndToCome()
    {
      var at := ReceiveFull(buffer);
      ReadChecksAreComplete(hw.flags);
      status := FinishRead(buffer, at, false, 0);
    }

    /** The data phase of a single-block read, of a card that can send `data`. */
    method TransferOne(buffer: nat, data: seq<bv8>, timeout: nat) returns (status: int)
      requires Valid() && buffer + BLOCK <= ram.Length && |data| <= BLOCK && |data| % WORD == 0
      modifies host`trace, host`rcas, hw, ram
      ensures host.Valid() && Ordered(true, [Enabled(true, 512, timeout)])
      ensures status != 0 ==> !ReadPasses(hw.cleared)
      ensures hw.Settled() && hw.starts == old(hw.starts) + 1 && hw.misled == old(hw.misled)
      ensures Untouched(buffer, buffer + BLOCK)
      ensures STBITERR in old(hw.flags) ==> STBITERR in hw.flags && status != 0
      ensures hw.BlockEndAsFound()
      ensures status == 0 && DBCKEND !in hw.before ==>
                |data| == BLOCK && ram[buffer..buffer + BLOCK] == data && hw.NoBlockEndToCome()
    {
      host.Enable(true, BLOCK, timeout);
      hw.StartRead(data, BLOCK, timeout);
      status := ReceiveSingle(buffer);
    }

    /** The loop of the latest read waits for a flag that was up before it: DBCKEND for one block,
        DATAEND for more. */
    ghost predicate ReadWasStale(count: nat)
      reads hw
    {
      if count == 1 then DBCKEND in hw.before else DATAEND in hw.before
    }

    /** No such flag is up or still to come: what a caller can know before a read. */
    ghost predicate ReadWillBeFresh(count: nat)
      reads hw
    {
      if count == 1 then hw.NoBlockEndToCome() else hw.NoDataEndToCome()
    }

    /** What a call leaves in the books: whether it configured a transfer, and whether that one was reported
        complete on an older end flag.  Without a transfer what was not to come is still not to come. */
    twostate predicate Tracked(done: bool, stale: bool)
      reads hw
    {
      && old(hw.starts) <= hw.starts <= old(hw.starts) + 1
      && (done ==> hw.starts > old(hw.starts))
      && (hw.starts == old(hw.starts) ==> hw.FreshnessKept())
      && hw.misled == old(hw.misled) + if done && stale then 1 else 0
    }

    /** The end of every transfer: a 0 so far becomes the answer of wait_card_ready. */
    method Conclude(result: int, ghost stale: bool) returns (status: int)
      requires host.Valid()
      modifies host`trace, host`rcas, host`state, hw`misled
      ensures host.Valid() && Orders(host.trace) == Orders(old(host.trace))
      ensures result != 0 ==> status == result && host.trace == old(host.trace)
      ensures result == 0 ==> if status == 0 then SaysReady(host.trace) else Refuses(host.trace)
      ensures hw.misled == old(hw.misled) + if status == 0 && stale then 1 else 0
    {
      status := result;
      if status == 0 {
        status := WaitReady();
        if status == 0 && stale {
          hw.misled := hw.misled + 1;
        }
      }
    }

    /** CMD17 and, if it is accepted, the data phase. */
    method AskForOne(buffer: nat, data: seq<bv8>, address: bv32, timeout: nat) returns (status: int)
      requires Valid() && buffer + BLOCK <= ram.Length && |data| <= BLOCK && |data| % WORD == 0
      modifies host`trace, host`rcas, host`state, hw, ram
      ensures host.Valid() && hw.Settled()
      ensures Ordered(status == 0, [Sent(17, address), Enabled(true, 512, timeout)])
      ensures status != 0 ==> Refuses(host.trace) || !ReadPasses(hw.cleared)
      ensures Tracked(status == 0, false)
      ensures Untouched(buffer, buffer + BLOCK)
      ensures STBITERR in old(hw.flags) ==> STBITERR in hw.flags && status != 0
      ensures status == 0 ==> hw.BlockEndAsFound()
      ensures status == 0 && DBCKEND !in hw.before ==>
                |data| == BLOCK && ram[buffer..buffer + BLOCK] == data && hw.NoBlockEndToCome()
    {
      status := Command(CMD_READ_SINGLE_BLOCK, address);
      ghost var mid := Orders(host.trace);
      if status == 0 {
        status := TransferOne(buffer, data, timeout);
      }
      Chain(Orders(old(host.trace)), mid, Orders(host.trace), [Sent(17, address)], [Enabled(true, 512, timeout)]);
      assert [Sent(17, address), Enabled(true, 512, timeout)] == [Sent(17, address)] + [Enabled(true, 512, timeout)];
    }

    /** The whole of a single-block read, of a card that can send `data`. */
    method OneIn(buffer: nat, data: seq<bv8>, address: bv32, timeout: nat) returns (status: int)
      requires Valid() && buffer + BLOCK <= ram.Length && |data| <= BLOCK && |data| % WORD == 0
      modifies host`trace, host`rcas, host`state, hw, ram
      ensures host.Valid() && hw.Settled()
      ensures Ordered(status == 0, [Sent(17, address), Enabled(true, 512, timeout)])
      ensures if status == 0 then SaysReady(host.trace) else Refuses(host.trace) || !ReadPasses(hw.cleared)
      ensures Tracked(status == 0, DBCKEND in hw.before)
      ensures Untouched(buffer, buffer + BLOCK)
      ensures STBITERR in old(hw.flags) ==> STBITERR in hw.flags && status != 0
      ensures status == 0 ==> hw.BlockEndAsFound()
      ensures status == 0 && DBCKEND !in hw.before ==>
                |data| == BLOCK && ram[buffer..buffer + BLOCK] == data && hw.NoBlockEndToCome()
    {
      status := AskForOne(buffer, data, address, timeout);
      status := Conclude(status, DBCKEND in hw.before);
    }

    /** read_single_block_sd for a buffer of the right size. */
    method ReadOne(buffer: nat, block: nat, timeout: nat) returns (status: int)
      requires Valid() && buffer + BLOCK <= ram.Length && block < UINT32
      modifies host`trace, host`rcas, host`state, hw, ram
      ensures Valid()
      ensures Untouched(buffer, buffer + BLOCK)
      ensures STBITERR in old(hw.flags) ==> STBITERR in hw.flags && status != 0
      ensures status == 0 ==> hw.BlockEndAsFound()
      ensures status == 0 && DBCKEND !in hw.before ==>
                && Target(block) + BLOCK <= |store| && hw.NoBlockEndToCome()
                && ram[buffer..buffer + BLOCK] == store[Target(block)..Target(block) + BLOCK]
      ensures Tracked(status == 0, DBCKEND in hw.before)
      ensures
        var a := (if byteAddressed then 512 * block % 0x1_0000_0000 else block) as bv32;
        Ordered(status == 0, [Sent(17, a), Enabled(true, 512, timeout)])
      ensures if status == 0 then SaysReady(host.trace) else Refuses(host.trace) || !ReadPasses(hw.cleared)
    {
      var b, address := Address(block);
      status := OneIn(buffer, Readable(b, 1), address, timeout);
    }

    /** read_single_block_sd */
    method ReadSingleBlock(buffer: nat, size: nat, block: nat, timeout: nat) returns (status: int)
      requires Valid() && buffer + size <= ram.Length && block < UINT32
      modifies host`trace, host`rcas, host`state, hw, ram
      ensures Valid()
      ensures Untouched(buffer, buffer + size)
      ensures STBITERR in old(hw.flags) ==> STBITERR in hw.flags && status != 0
      ensures status == 0 ==> size == BLOCK && hw.BlockEndAsFound()
      ensures status == 0 && !ReadWasStale(1) ==>
                && Target(block) + size <= |store| && ReadWillBeFresh(1)
                && ram[buffer..buffer + size] == store[Target(block)..Target(block) + size]
      ensures Tracked(status == 0, ReadWasStale(1))
      ensures
        var a := (if byteAddressed then 512 * block % 0x1_0000_0000 else block) as bv32;
        Ordered(status == 0, [Sent(17, a), Enabled(true, 512, timeout)])
      ensures status == 0 ==> SaysReady(host.trace)
      ensures status != 0 ==> size != BLOCK || Refuses(host.trace) || !ReadPasses(hw.cleared)
    {
      if size != BLOCK {
        return -1;
      }
      status := ReadOne(buffer, block, timeout);
    }

    /** sdio_config_data and then CMD18: the data path is enabled before the command. */
    method BeginIn(ghost buffer: nat, data: seq<bv8>, length: nat, address: bv32, timeout: nat) returns (status: int)
      requires Valid() && buffer + length <= ram.Length && |data| <= length && |data| % WORD == 0 && length >= BLOCK
      modifies host`trace, host`rcas, host`state, hw
      ensures host.Valid() && Begun(buffer, length) && hw.Started() && hw.source == data
      ensures Orders(host.trace) == Orders(old(host.trace)) + [Enabled(true, length, timeout), Sent(18, address)]
      ensures if status == 0 then true else status == -1 && Refuses(host.trace)
    {
      host.Enable(true, length, timeout);
      hw.StartRead(data, length, timeout);
      status := Command(CMD_READ_MULTIPLE_BLOCK, address);
      status := if status == 0 then 0 else -1;
    }

    /** The data phase of a multi-block read: CMD18 to the last clear_flags_sdio. */
    method TransferIn(buffer: nat, data: seq<bv8>, length: nat, address: bv32, timeout: nat) returns (status: int)
      requires Valid() && buffer + length <= ram.Length && |data| <= length && |data| % WORD == 0 && length >= BLOCK
      modifies host`trace, host`rcas, host`state, hw, ram
      ensures host.Valid() && hw.Settled() && hw.starts == old(hw.starts) + 1 && hw.misled == old(hw.misled)
      ensures Ordered(status == 0, [Enabled(true, length, timeout), Sent(18, address), Sent(12, 0)])
      ensures status != 0 ==> Refuses(host.trace) || !ReadPasses(hw.cleared)
      ensures Untouched(buffer, buffer + length)
      ensures STBITERR in old(hw.flags) ==> STBITERR in hw.flags && status != 0
      ensures hw.DataEndAsFound()
      ensures status == 0 && DATAEND !in hw.before ==>
                |data| == length && ram[buffer..buffer + length] == data && hw.NoDataEndToCome()
    {
      status := BeginIn(buffer, data, length, address, timeout);
      ghost var mid := Orders(host.trace);
      if status == 0 {
        status := ReceiveMulti(buffer, length);
      }
      Chain(Orders(old(host.trace)), mid, Orders(host.trace),
        [Enabled(true, length, timeout), Sent(18, address)], [Sent(12, 0)]);
      assert [Enabled(true, length, timeout), Sent(18, address), Sent(12, 0)]
          == [Enabled(true, length, timeout), Sent(18, address)] + [Sent(12, 0)];
    }

    /** The whole of a multi-block read, of a card that can send `data`. */
    method ManyIn(buffer: nat, data: seq<bv8>, length: nat, address: bv32, timeout: nat) returns (status: int)
      requires Valid() && buffer + length <= ram.Length && |data| <= length && |data| % WORD == 0 && length >= BLOCK
      modifies host`trace, host`rcas, host`state, hw, ram
      ensures host.Valid() && hw.Settled()
      ensures Ordered(status == 0, [Enabled(true, length, timeout), Sent(18, address), Sent(12, 0)])
      ensures if status == 0 then SaysReady(host.trace) else Refuses(host.trace) || !ReadPasses(hw.cleared)
      ensures Tracked(status == 0, DATAEND in hw.before)
      ensures Untouched(buffer, buffer + length)
      ensures STBITERR in old(hw.flags) ==> STBITERR in hw.flags && status != 0
      ensures hw.DataEndAsFound()
      ensures status == 0 && DATAEND !in hw.before ==>
                |data| == length && ram[buffer..buffer + length] == data && hw.NoDataEndToCome()
    {
      status := TransferIn(buffer, data, length, address, timeout);
      status := Conclude(status, DATAEND in hw.before);
    }

    /** read_multi_block_sd for two blocks or more. */
    method ReadBlocks(buffer: nat, count: nat, block: nat, timeout: nat) returns (status: int)
      requires Valid() && buffer + BLOCK * count <= ram.Length && block < UINT32 && count > 1
      modifies host`trace, host`rcas, host`state, hw, ram
      ensures Valid()
      ensures Untouched(buffer, buffer + BLOCK * count)
      ensures STBITERR in old(hw.flags) ==> STBITERR in hw.flags && status != 0
      ensures status == 0 ==> hw.DataEndAsFound()
      ensures status == 0 && DATAEND !in hw.before ==>
                && Target(block) + BLOCK * count <= |store| && hw.NoDataEndToCome()
                && ram[buffer..buffer + BLOCK * count] == store[Target(block)..Target(block) + BLOCK * count]
      ensures Tracked(status == 0, DATAEND in hw.before)
      ensures
        var a := (if byteAddressed then 512 * block % 0x1_0000_0000 else block) as bv32;
        Ordered(status == 0, [Enabled(true, 512 * count, timeout), Sent(18, a), Sent(12, 0)])
      ensures if status == 0 then SaysReady(host.trace) else Refuses(host.trace) || !ReadPasses(hw.cleared)
    {
      var b, address := Address(block);
      status := ManyIn(buffer, Readable(b, count), BLOCK * count, address, timeout);
    }

    /** read_multi_block_sd.  After a 0 the buffer is exactly the card's data, if the end flag the loop waits
        for was not already up when the transfer began; a caller knows that it was not when none was up and
        none still to come before the call.  Whatever happens, no RAM outside the buffer is written; once a
        start-bit error has come up no read succeeds again. */
    method ReadMultiBlock(buffer: nat, count: nat, block: nat, timeout: nat) returns (status: int)
      requires Valid() && buffer + BLOCK * count <= ram.Length && block < UINT32
      modifies host`trace, host`rcas, host`state, hw, `calls, ram
      ensures Valid()
      ensures Untouched(buffer, buffer + BLOCK * count)
      ensures STBITERR in old(hw.flags) ==> STBITERR in hw.flags && (status != 0 || count == 0)
      ensures status == 0 && count > 0 ==> if count == 1 then hw.BlockEndAsFound() else hw.DataEndAsFound()
      ensures status == 0 && count > 0 && !ReadWasStale(count) ==>
                && Target(block) + BLOCK * count <= |store| && ReadWillBeFresh(count)
                && ram[buffer..buffer + BLOCK * count] == store[Target(block)..Target(block) + BLOCK * count]
      ensures Tracked(status == 0 && count > 0, ReadWasStale(count))
      ensures
        var a := (if byteAddressed then 512 * block % 0x1_0000_0000 else block) as bv32;
        Ordered(status == 0,
          if count == 0 then [] else if count == 1 then [Sent(17, a), Enabled(true, 512, timeout)]
          else [Enabled(true, 512 * count, timeout), Sent(18, a), Sent(12, 0)])
      ensures status == 0 && count > 0 ==> SaysReady(host.trace)
      ensures status != 0 ==> Refuses(host.trace) || !ReadPasses(hw.cleared)
      ensures calls == old(calls) + [status == 0]
    {
      status := 0;
      if count == 1 {
        status := ReadSingleBlock(buffer, BLOCK * count, block, timeout);
      } else if count > 1 {
        status := ReadBlocks(buffer, count, block, timeout);
      }
      calls := calls + [status == 0];
    }

    // ---------- write ----------

    /** What has gone into the FIFO is a prefix of the caller's data: nothing past it is ever read. */
    ghost predicate Sending(data: nat)
      reads hw, ram
    {
      && hw.Valid() && !hw.reading
      && |hw.pushed| <= hw.length && data + hw.length <= ram.Length
      && hw.pushed == ram[data..data + |hw.pushed|]
    }

    /** At every point of a write: what the card took, then the FIFO, is a prefix of the caller's data,
        and once the transfer has ended the card took all of it. */
    lemma NothingInvented(data: nat)
      requires Sending(data)
      ensures hw.taken + hw.fifo == ram[data..data + |hw.pushed|]
      ensures |hw.fifo| <= FIFO_BYTES
      ensures hw.ends.data ==> hw.taken == hw.pushed == ram[data..data + hw.length]
    {
    }

    /** SDIO->STA read during a transfer out of RAM. */
    method PollWrite(ghost data: nat) returns (sta: Sta)
      requires Sending(data)
      modifies hw`fifo, hw`pending, hw`taken, hw`flags, hw`ends, hw`timer
      ensures Sending(data)
      ensures sta.flags == hw.flags && hw.Progressed()
      ensures sta.txHalfEmpty == (|hw.fifo| + HALF_BYTES <= FIFO_BYTES)
      ensures if old(hw.timer) == 0 then DTIMEOUT in hw.flags && hw.timer == 0 else hw.timer == old(hw.timer) - 1
    {
      sta := hw.ReadSta();
    }

    /** SDIO->FIFO = *temp_buff++ */
    method SendWord(ghost data: nat, at: nat)
      requires Sending(data) && at == data + |hw.pushed| && |hw.pushed| + WORD <= hw.length
      requires |hw.fifo| + WORD <= FIFO_BYTES
      modifies hw`fifo, hw`pending, hw`taken, hw`flags, hw`ends, hw`pushed
      ensures Sending(data) && |hw.pushed| == |old(hw.pushed)| + WORD
      ensures hw.Progressed()
      ensures |hw.fifo| <= |old(hw.fifo)| + WORD
    {
      hw.WriteFifo(ram[at..at + WORD]);
      CutRam(ram, data, at, at + WORD);
    }

    method SendEight(ghost data: nat, from: nat) returns (at: nat)
      requires Sending(data) && from == data + |hw.pushed| && |hw.pushed| + HALF_BYTES <= hw.length
      requires |hw.fifo| + HALF_BYTES <= FIFO_BYTES
      modifies hw`fifo, hw`pending, hw`taken, hw`flags, hw`ends, hw`pushed
      ensures Sending(data) && at == data + |hw.pushed| == from + HALF_BYTES
      ensures hw.Progressed()
    {
      at := from;
      for i := 0 to 8
        invariant Sending(data) && at == data + |hw.pushed| == from + WORD * i
        invariant |hw.fifo| + HALF_BYTES <= FIFO_BYTES + WORD * i
        invariant hw.Progressed()
      {
        SendWord(data, at);
        at := at + WORD;
      }
    }

    /** The body of the write loop. */
    method TransmitSome(data: nat, remaining: int) returns (dataRemaining: int)
      requires Sending(data) && remaining == hw.length - |hw.pushed| && remaining % HALF_BYTES == 0
      modifies hw`fifo, hw`pending, hw`taken, hw`flags, hw`ends, hw`pushed, hw`timer
      ensures Sending(data)
      ensures dataRemaining == hw.length - |hw.pushed| && dataRemaining % HALF_BYTES == 0
      ensures hw.Progressed() && hw.timer <= old(hw.timer)
      ensures || |hw.pushed| == |old(hw.pushed)| + HALF_BYTES
              || (hw.pushed == old(hw.pushed) && (|hw.fifo| + HALF_BYTES > FIFO_BYTES || remaining <= 0))
    {
      dataRemaining := remaining;
      var sta := PollWrite(data);
      if sta.txHalfEmpty && dataRemaining > 0 {
        var _ := SendEight(data, data + hw.length - dataRemaining);
        dataRemaining := dataRemaining - HALF_BYTES;
      }
    }

    /** The write loop of write_single_block_sd and write_multi_block_sd: eight words whenever half
        the FIFO is empty, never past the end of the data, never into a full FIFO. */
    method Transmit(data: nat, length: nat)
      requires Sending(data) && hw.pushed == [] && hw.length == length && length % HALF_BYTES == 0
      modifies hw`fifo, hw`pending, hw`taken, hw`flags, hw`ends, hw`pushed, hw`timer
      ensures Sending(data)
      ensures WriteEnds(hw.flags) && hw.Progressed()
      ensures WriteEnds(old(hw.flags)) ==> hw.pushed == []
      ensures old(hw.ends) == NO_ENDS && hw.before == old(hw.flags) ==> EndsWith(hw.before, hw.ends, hw.flags)
    {
      var dataRemaining: int := length;
      var sta := PollWrite(data);
      while !WriteEnds(sta.flags)
        invariant Sending(data)
        invariant dataRemaining == length - |hw.pushed| && dataRemaining % HALF_BYTES == 0
        invariant sta.flags == hw.flags && hw.Progressed()
        invariant WriteEnds(old(hw.flags)) ==> hw.pushed == []
        decreases !WriteEnds(sta.flags), hw.timer
      {
        dataRemaining := TransmitSome(data, dataRemaining);
        sta := PollWrite(data);
      }
    }

    /** The error checks after a write loop. */
    method CheckWriteErrors(ghost data: nat) returns (status: int)
      requires Sending(data)
      modifies hw`fifo, hw`pending, hw`taken, hw`flags, hw`ends, hw`cleared, hw`timer
      ensures hw.Settled() && (STBITERR in old(hw.flags) ==> STBITERR in hw.flags)
      ensures status == 0 ==> WritePasses(old(hw.flags)) && (old(hw.ends).data ==> hw.NoDataEndToCome())
      ensures status != 0 ==> !WritePasses(hw.cleared)
      ensures status == 0 || status == -129 || status == -128 || status == -133
      ensures status == -129 ==> DCRCFAIL in hw.cleared
      ensures status == -128 ==> TXUNDERR in hw.cleared
      ensures status == -133 ==> DTIMEOUT in hw.cleared
    {
      var sta := PollWrite(data);
      if DCRCFAIL in sta.flags {
        hw.ClearDataFlags();
        return ERROR_DATA_CRC;
      }
      sta := PollWrite(data);
      if TXUNDERR in sta.flags {
        hw.ClearDataFlags();
        return ERROR_TXUNDER;
      }
      sta := PollWrite(data);
      if DTIMEOUT in sta.flags {
        hw.ClearDataFlags();
        return ERROR_WAIT_TIME;
      }
      hw.ClearDataFlags();
      status := 0;
    }

    /** How much of a write of `len` bytes at `offset` fits on the card. */
    function Room(offset: nat, len: nat): (n: nat)
      reads this
      ensures n <= len && (n > 0 ==> offset + n <= |store|)
      ensures n == len && len > 0 ==> offset + len <= |store|
    {
      if offset >= |store| then 0 else if offset + len <= |store| then len else |store| - offset
    }

    /** The card's side of a write: a transfer that ended cleanly is programmed; any other leaves
        arbitrary bytes in the range it was aimed at, and nowhere else. */
    method Program(ghost data: nat, offset: nat)
      requires Sending(data) && hw.room == Room(offset, hw.length) && hw.length > 0
      modifies `store
      ensures |store| == |old(store)| && SameOutside(old(store), store, offset, offset + hw.length)
      ensures hw.ends.data && DCRCFAIL !in hw.flags ==>
                offset + hw.length <= |store| && store == Splice(old(store), offset, ram[data..data + hw.length])
    {
      if hw.ends.data && DCRCFAIL !in hw.flags {
        assert hw.taken == hw.pushed == ram[data..data + hw.length];
        store := Splice(store, offset, hw.taken);
      } else if hw.room > 0 {
        var left: seq<bv8> := *;
        if |left| == hw.room {
          store := Splice(store, offset, left);
        }
      }
    }

    /** sdio_config_data and then the write command. */
    method BeginOut(data: nat, offset: nat, length: nat, cmd: nat, address: bv32, timeout: nat) returns (status: int)
      requires Valid() && data + length <= ram.Length && length > 0
      requires cmd == CMD_WRITE_BLOCK || cmd == CMD_WRITE_MULTIPLE_BLOCK
      modifies host`trace, host`rcas, host`state, hw
      ensures host.Valid() && status <= 0
      ensures Sending(data) && hw.pushed == [] && hw.length == length && hw.room == Room(offset, length)
      ensures hw.Started()
      ensures Orders(host.trace) == Orders(old(host.trace)) + [Enabled(false, length, timeout), Sent(cmd, address)]
      ensures status != 0 ==> Refuses(host.trace)
    {
      host.Enable(false, length, timeout);
      hw.StartWrite(length, Room(offset, length), timeout);
      assert ram[data..data + 0] == [];
      status := Command(cmd, address);
    }

    /** The write loop, and what the card makes of it. */
    method SendAll(data: nat, offset: nat, length: nat)
      requires Sending(data) && hw.pushed == [] && hw.length == length && length % HALF_BYTES == 0 && length > 0
      requires hw.room == Room(offset, length) && hw.before == hw.flags
      modifies hw`fifo, hw`pending, hw`taken, hw`flags, hw`ends, hw`pushed, hw`timer, `store
      ensures Sending(data) && WriteEnds(hw.flags)
      ensures STBITERR in old(hw.flags) ==> STBITERR in hw.flags
      ensures |store| == |old(store)| && SameOutside(old(store), store, offset, offset + length)
      ensures WriteEnds(hw.before) ==> hw.pushed == []
      ensures WritePasses(hw.flags) && STBITERR !in hw.flags && DATAEND !in hw.before ==>
                && hw.ends.data && hw.pushed == ram[data..data + length]
                && offset + length <= |store| && store == Splice(old(store), offset, ram[data..data + length])
    {
      Transmit(data, length);
      WriteChecksMissStartBit(false);
      Program(data, offset);
    }

    /** CMD12 after a multi-block write whose data ended. */
    method StopWriting(ghost data: nat) returns (status: int)
      requires host.Valid() && Sending(data)
      modifies host`trace, host`rcas, host`state, hw`fifo, hw`pending, hw`taken, hw`flags, hw`ends, hw`cleared, hw`timer
      ensures host.Valid() && (status != 0 ==> hw.Settled() && Refuses(host.trace))
      ensures Ordered(status == 0 && DATAEND in old(hw.flags), [Sent(12, 0)])
      ensures STBITERR in old(hw.flags) ==> STBITERR in hw.flags
      ensures status == 0 ==> Sending(data) && hw.Progressed()
    {
      var sta := PollWrite(data);
      status := 0;
      if DATAEND in sta.flags {
        status := Stop();
        if status != 0 {
          hw.ClearDataFlags();
          status := -1;
        }
      }
    }

    /** What goes into the FIFO in a write that reports success: all the data, or nothing at all. */
    static ghost function SentBytes(stale: bool, bytes: seq<bv8>): seq<bv8> {
      if stale then [] else bytes
    }

    /** write_multi_block_sd from the write loop on. */
    method Deliver(data: nat, offset: nat, length: nat) returns (status: int)
      requires host.Valid() && Sending(data) && hw.pushed == [] && hw.length == length
      requires length % HALF_BYTES == 0 && length > 0
      requires hw.room == Room(offset, length) && hw.before == hw.flags
      modifies host`trace, host`rcas, host`state,
        hw`fifo, hw`pending, hw`taken, hw`flags, hw`ends, hw`cleared, hw`pushed, hw`timer, `store
      ensures host.Valid() && hw.Settled()
      ensures Ordered(status == 0 && STBITERR !in hw.flags, [Sent(12, 0)])
      ensures status != 0 ==> Refuses(host.trace) || !WritePasses(hw.cleared)
      ensures STBITERR in old(hw.flags) ==> STBITERR in hw.flags
      ensures SameOutside(old(store), store, offset, offset + length)
      ensures status == 0 && STBITERR !in hw.flags ==>
                hw.pushed == SentBytes(DATAEND in hw.before, ram[data..data + length])
      ensures status == 0 && STBITERR !in hw.flags && DATAEND !in hw.before ==>
                Written(old(store), store, offset, ram[data..data + length]) && hw.NoDataEndToCome()
    {
      SendAll(data, offset, length);
      status := StopWriting(data);
      if status == 0 {
        status := CheckWriteErrors(data);
      }
    }

    /** write_single_block_sd from the write loop on. */
    method DeliverOne(data: nat, offset: nat) returns (status: int)
      requires Sending(data) && hw.pushed == [] && hw.length == BLOCK
      requires hw.room == Room(offset, BLOCK) && hw.before == hw.flags
      modifies hw`fifo, hw`pending, hw`taken, hw`flags, hw`ends, hw`cleared, hw`pushed, hw`timer, `store
      ensures hw.Settled()
      ensures status != 0 ==> !WritePasses(hw.cleared)
      ensures STBITERR in old(hw.flags) ==> STBITERR in hw.flags
      ensures |store| == |old(store)| && SameOutside(old(store), store, offset, offset + BLOCK)
      ensures status == 0 && STBITERR !in hw.flags ==>
                hw.pushed == SentBytes(DATAEND in hw.before, ram[data..data + BLOCK])
      ensures status == 0 && STBITERR !in hw.flags && DATAEND !in hw.before ==>
                Written(old(store), store, offset, ram[data..data + BLOCK]) && hw.NoDataEndToCome()
    {
      SendAll(data, offset, BLOCK);
      status := CheckWriteErrors(data);
    }

    /** The data phase of a single-block write: CMD24 to the last clear_flags_sdio. */
    method TransferOneOut(data: nat, offset: nat, address: bv32, timeout: nat) returns (status: int)
      requires Valid() && data + BLOCK <= ram.Length
      modifies host`trace, host`rcas, host`state, hw, `store
      ensures Valid() && hw.starts == old(hw.starts) + 1 && hw.misled == old(hw.misled)
      ensures STBITERR in old(hw.flags) ==> STBITERR in hw.flags
      ensures SameOutside(old(store), store, offset, offset + BLOCK)
      ensures hw.DataEndAsFound()
      ensures status == 0 && STBITERR !in hw.flags ==>
                hw.pushed == SentBytes(DATAEND in hw.before, ram[data..data + BLOCK])
      ensures status == 0 && STBITERR !in hw.flags && DATAEND !in hw.before ==>
                Written(old(store), store, offset, ram[data..data + BLOCK]) && hw.NoDataEndToCome()
      ensures Ordered(status == 0, [Enabled(false, 512, timeout), Sent(24, address)])
      ensures status != 0 ==> Refuses(host.trace) || !WritePasses(hw.cleared)
    {
      status := BeginOut(data, offset, BLOCK, CMD_WRITE_BLOCK, address, timeout);
      status := if status == 0 then 0 else -1;
      if status == 0 {
        status := DeliverOne(data, offset);
      }
    }

    /** And the wait behind it. */
    method OneOut(data: nat, offset: nat, address: bv32, timeout: nat) returns (status: int)
      requires Valid() && data + BLOCK <= ram.Length
      modifies host`trace, host`rcas, host`state, hw, `store
      ensures Valid()
      ensures Ordered(status == 0, [Enabled(false, 512, timeout), Sent(24, address)])
      ensures if status == 0 then SaysReady(host.trace) else Refuses(host.trace) || !WritePasses(hw.cleared)
      ensures Tracked(status == 0, DATAEND in hw.before)
      ensures STBITERR in old(hw.flags) ==> STBITERR in hw.flags
      ensures SameOutside(old(store), store, offset, offset + BLOCK)
      ensures hw.DataEndAsFound()
      ensures status == 0 && STBITERR !in hw.flags ==>
                hw.pushed == SentBytes(DATAEND in hw.before, ram[data..data + BLOCK])
      ensures status == 0 && STBITERR !in hw.flags && DATAEND !in hw.before ==>
                Written(old(store), store, offset, ram[data..data + BLOCK]) && hw.NoDataEndToCome()
    {
      status := TransferOneOut(data, offset, address, timeout);
      status := Conclude(status, DATAEND in hw.before);
    }

    /** write_single_block_sd.  Only the target range of the card can change, RAM never does.  A 0, with no
        start-bit error, means the range holds the data iff DATAEND was not already up when the transfer
        began; otherwise not a word of it was sent. */
    method WriteSingleBlock(data: nat, size: nat, block: nat, timeout: nat) returns (status: int)
      requires Valid() && data + size <= ram.Length && block < UINT32
      modifies host`trace, host`rcas, host`state, hw, `store
      ensures Valid()
      ensures STBITERR in old(hw.flags) ==> STBITERR in hw.flags
      ensures SameOutside(old(store), store, Target(block), Target(block) + size)
      ensures status == 0 ==> size == BLOCK && hw.DataEndAsFound()
      ensures status == 0 && STBITERR !in hw.flags ==>
                hw.pushed == SentBytes(DATAEND in hw.before, ram[data..data + size])
      ensures status == 0 && STBITERR !in hw.flags && DATAEND !in hw.before ==>
                Written(old(store), store, Target(block), ram[data..data + size]) && hw.NoDataEndToCome()
      ensures Tracked(status == 0, DATAEND in hw.before)
      ensures
        var a := (if byteAddressed then 512 * block % 0x1_0000_0000 else block) as bv32;
        Ordered(status == 0, [Enabled(false, 512, timeout), Sent(24, a)])
      ensures status == 0 ==> SaysReady(host.trace)
      ensures status != 0 ==> size != BLOCK || Refuses(host.trace) || !WritePasses(hw.cleared)
    {
      if size != BLOCK {
        return -10;
      }
      var b, address := Address(block);
      status := WaitReady();
      if status == 0 {
        status := OneOut(data, BLOCK * b, address, timeout);
      }
    }

    /** The data phase of a multi-block write: CMD25 to the last clear_flags_sdio. */
    method TransferOut(data: nat, offset: nat, length: nat, address: bv32, timeout: nat) returns (status: int)
      requires Valid() && data + length <= ram.Length && length % HALF_BYTES == 0 && length >= BLOCK
      modifies host`trace, host`rcas, host`state, hw, `store
      ensures Valid() && hw.starts == old(hw.starts) + 1 && hw.misled == old(hw.misled)
      ensures STBITERR in old(hw.flags) ==> STBITERR in hw.flags
      ensures SameOutside(old(store), store, offset, offset + length)
      ensures hw.DataEndAsFound()
      ensures status == 0 && STBITERR !in hw.flags ==>
                hw.pushed == SentBytes(DATAEND in hw.before, ram[data..data + length])
      ensures status == 0 && STBITERR !in hw.flags && DATAEND !in hw.before ==>
                Written(old(store), store, offset, ram[data..data + length]) && hw.NoDataEndToCome()
      ensures Ordered(status == 0 && STBITERR !in hw.flags,
                [Enabled(false, length, timeout), Sent(25, address), Sent(12, 0)])
      ensures status != 0 ==> Refuses(host.trace) || !WritePasses(hw.cleared)
    {
      status := BeginOut(data, offset, length, CMD_WRITE_MULTIPLE_BLOCK, address, timeout);
      ghost var mid := Orders(host.trace);
      status := if status == 0 then 0 else -1;
      if status == 0 {
        status := Deliver(data, offset, length);
      }
      Chain(Orders(old(host.trace)), mid, Orders(host.trace),
        [Enabled(false, length, timeout), Sent(25, address)], [Sent(12, 0)]);
      assert [Enabled(false, length, timeout), Sent(25, address), Sent(12, 0)]
          == [Enabled(false, length, timeout), Sent(25, address)] + [Sent(12, 0)];
    }

    /** write_multi_block_sd for two blocks or more. */
    method WriteBlocks(data: nat, length: nat, block: nat, timeout: nat) returns (status: int)
      requires Valid() && data + length <= ram.Length && block < UINT32 && length % HALF_BYTES == 0 && length >= BLOCK
      modifies host`trace, host`rcas, host`state, hw, `store
      ensures Valid()
      ensures STBITERR in old(hw.flags) ==> STBITERR in hw.flags
      ensures SameOutside(old(store), store, Target(block), Target(block) + length)
      ensures status == 0 ==> hw.DataEndAsFound()
      ensures status == 0 && STBITERR !in hw.flags ==>
                hw.pushed == SentBytes(DATAEND in hw.before, ram[data..data + length])
      ensures status == 0 && STBITERR !in hw.flags && DATAEND !in hw.before ==>
                Written(old(store), store, Target(block), ram[data..data + length]) && hw.NoDataEndToCome()
      ensures Tracked(status == 0, DATAEND in hw.before)
      ensures
        var a := (if byteAddressed then 512 * block % 0x1_0000_0000 else block) as bv32;
        Ordered(status == 0 && STBITERR !in hw.flags, [Enabled(false, length, timeout), Sent(25, a), Sent(12, 0)])
      ensures if status == 0 then SaysReady(host.trace) else Refuses(host.trace) || !WritePasses(hw.cleared)
    {
      var b, address := Address(block);
      status := TransferOut(data, BLOCK * b, length, address, timeout);
      status := Conclude(status, DATAEND in hw.before);
    }

    /** write_multi_block_sd, with the same contract. */
    method WriteMultiBlock(data: nat, count: nat, block: nat, timeout: nat) returns (status: int)
      requires Valid() && data + BLOCK * count <= ram.Length && block < UINT32
      modifies host`trace, host`rcas, host`state, hw, `calls, `store
      ensures Valid()
      ensures STBITERR in old(hw.flags) ==> STBITERR in hw.flags
      ensures SameOutside(old(store), store, Target(block), Target(block) + BLOCK * count)
      ensures status == 0 && count > 0 ==> hw.DataEndAsFound()
      ensures status == 0 && count > 0 && STBITERR !in hw.flags ==>
                hw.pushed == SentBytes(DATAEND in hw.before, ram[data..data + BLOCK * count])
      ensures status == 0 && count > 0 && STBITERR !in hw.flags && DATAEND !in hw.before ==>
                Written(old(store), store, Target(block), ram[data..data + BLOCK * count]) && hw.NoDataEndToCome()
      ensures Tracked(status == 0 && count > 0, DATAEND in hw.before)
      ensures
        var a := (if byteAddressed then 512 * block % 0x1_0000_0000 else block) as bv32;
        Ordered(status == 0 && (count == 1 || STBITERR !in hw.flags),
          if count == 0 then [] else if count == 1 then [Enabled(false, 512, timeout), Sent(24, a)]
          else [Enabled(false, 512 * count, timeout), Sent(25, a), Sent(12, 0)])
      ensures status == 0 && count > 0 ==> SaysReady(host.trace)
      ensures status != 0 ==> Refuses(host.trace) || !WritePasses(hw.cleared)
      ensures calls == old(calls) + [status == 0]
    {
      status := 0;
      if count == 1 {
        status := WriteSingleBlock(data, BLOCK * count, block, timeout);
      } else if count > 1 {
        WholeWords(count);
        status := WriteBlocks(data, BLOCK * count, block, timeout);
      }
      calls := calls + [status == 0];
    }
  }
}
