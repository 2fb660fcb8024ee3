/** The SDIO data path of the STM32F4 (chapter 31 of RM0090): a FIFO of 32 words between the
    host and the card, status flags that are functions of the FIFO level, and end and error flags
    that stay set until cleared.  Data is counted in bytes and moved in words of four.

    The hardware is nondeterministic: every register access of the host is preceded by any number of
    hardware steps, also between transfers, and any error may come up at any time.  What the hardware
    must not do is raise DATAEND or DBCKEND before the words they speak of have passed, or more than
    once for one transfer and for one block.  Hardware may also be prompt: once the host has cleared
    the flags, the transfer they belonged to raises no end flag any more. */
module SdioFifo {

  const WORD: nat := 4
  const FIFO_BYTES: nat := 128   // 32 words
  const HALF_BYTES: nat := 32    // 8 words, the threshold of RXFIFOHF and TXFIFOHE
  const BLOCK: nat := 512

  /** The sticky bits of STA: the set of those that are up. */
  datatype Flag = DTIMEOUT | DCRCFAIL | STBITERR | RXOVERR | TXUNDERR | DATAEND | DBCKEND

  type Flags = set<Flag>

  /** What the present transfer has raised: DATAEND once, DBCKEND once for each block; and whether prompt
      hardware has closed it. */
  datatype Ends = Ends(data: bool, blocks: nat, closed: bool)

  const NO_ENDS: Ends := Ends(false, 0, false)

  /** An end flag that is up was raised by the present transfer or was up before it. */
  ghost predicate Explained(f: Flags, own: Ends, before: Flags) {
    && (DATAEND in f ==> own.data || DATAEND in before)
    && (DBCKEND in f ==> own.blocks > 0 || DBCKEND in before)
  }

  /** From one reading of the flags to a later one, with no clear between: no flag went down, and an end flag
      came up exactly with an end of its own. */
  ghost predicate Later(f: Flags, own: Ends, g: Flags, own': Ends) {
    && f <= g
    && (own.data ==> own'.data) && own.blocks <= own'.blocks
    && (DATAEND in g && DATAEND !in f ==> !own.data && own'.data)
    && (DBCKEND in g && DBCKEND !in f ==> own.blocks < own'.blocks)
    && (own'.data && !own.data ==> DATAEND in g)
    && (own.blocks < own'.blocks ==> DBCKEND in g)
    && own.closed == own'.closed && (own.closed ==> own == own')
  }

  // ---------- leaving the loops ----------

  /** The guard of the read loop of read_multi_block_sd, line 1125. */
  predicate MultiReadEnds(f: Flags) { DTIMEOUT in f || DCRCFAIL in f || STBITERR in f || RXOVERR in f || DATAEND in f }

  /** The guard of the read loop of read_single_block_sd, line 1049. */
  predicate SingleReadEnds(f: Flags) { DTIMEOUT in f || DCRCFAIL in f || STBITERR in f || RXOVERR in f || DBCKEND in f }

  /** The guard of both write loops, lines 809 and 878. */
  predicate WriteEnds(f: Flags) { TXUNDERR in f || STBITERR in f || DTIMEOUT in f || DCRCFAIL in f || DATAEND in f }

  /** The error checks after a read loop let these flags pass. */
  predicate ReadPasses(f: Flags) { DTIMEOUT !in f && DCRCFAIL !in f && RXOVERR !in f && STBITERR !in f }

  /** The error checks after a write loop let these flags pass: STBITERR is not among them. */
  predicate WritePasses(f: Flags) { DCRCFAIL !in f && TXUNDERR !in f && DTIMEOUT !in f }

  /** After a read, passing the checks means an end flag is up. */
  lemma ReadChecksAreComplete(f: Flags)
    ensures MultiReadEnds(f) && ReadPasses(f) ==> DATAEND in f
    ensures SingleReadEnds(f) && ReadPasses(f) ==> DBCKEND in f
  {
  }

  /** After a write it means so exactly when STBITERR is clear: with STBITERR alone the loop ends
      at once, every check passes and no data has ended. */
  lemma WriteChecksMissStartBit(startBitError: bool)
    ensures (forall f: Flags :: (STBITERR in f <==> startBitError) && WriteEnds(f) && WritePasses(f) ==> DATAEND in f)
       <==> !startBitError
  {
    var only := {STBITERR};
    assert WriteEnds(only) && WritePasses(only) && DATAEND !in only;
  }

  /** The flags a loop can end with that was entered with `before` up, when the transfer itself has
      raised `own`. */
  ghost predicate EndsWith(before: Flags, own: Ends, f: Flags) {
    && before <= f
    && (DATAEND in f <==> DATAEND in before || own.data)
    && (DBCKEND in f <==> DBCKEND in before || own.blocks > 0)
  }

  /** No loop looks at the flags before it starts.  That a transfer passed its checks (and, for a write, no
      start-bit error came up) means that it has ended itself, iff the end flag its loop waits for was not
      already up when it was configured, or some flag was up that rules such an end out. */
  lemma EndIsOwnIff(before: Flags)
    ensures (forall own, f :: EndsWith(before, own, f) && MultiReadEnds(f) && ReadPasses(f) ==> own.data)
       <==> DATAEND !in before || !ReadPasses(before)
    ensures (forall own, f :: EndsWith(before, own, f) && SingleReadEnds(f) && ReadPasses(f) ==> own.blocks > 0)
       <==> DBCKEND !in before || !ReadPasses(before)
    ensures (forall own, f :: EndsWith(before, own, f) && WriteEnds(f) && WritePasses(f) && STBITERR !in f ==> own.data)
       <==> DATAEND !in before || !WritePasses(before) || STBITERR in before
  {
    assert EndsWith(before, NO_ENDS, before);
  }

  /** One reading of SDIO->STA. */
  datatype Sta = Sta(flags: Flags, rxHalfFull: bool, rxFull: bool, rxAvail: bool, txHalfEmpty: bool)

  class Sdio {
    const prompt: bool
    var reading: bool
    var fifo: seq<bv8>
    var pending: seq<bv8>        // read: what the card has still to send
    var got: seq<bv8>            // read: what the host has taken from the FIFO
    var taken: seq<bv8>          // write: what the card has taken
    var room: nat                // write: what the card can take
    var length: nat              // DLEN
    var timer: nat               // DTIMER
    var flags: Flags
    var ends: Ends
    ghost var source: seq<bv8>   // read: all the card has to send
    ghost var pushed: seq<bv8>   // write: bytes the host has put into the FIFO
    ghost var before: Flags      // the flags that were up when the present transfer was configured
    ghost var cleared: Flags     // the flags its last clear found up
    ghost var starts: nat        // how many transfers have been configured
    ghost var misled: nat        // how many of them the driver reported complete on an older end flag

    /** Bytes that have entered the FIFO: DLEN - DCOUNT. */
    function Arrived(): nat
      reads `got, `fifo
    {
      |got| + |fifo|
    }

    /** Conservation: what the host has, the FIFO and what the card still holds are the card's data. */
    ghost predicate Rx()
      reads `got, `fifo, `pending, `source, `length, `ends
    {
      && source == got + fifo + pending
      && |source| <= length
      && (ends.data ==> Arrived() == length)
      && BLOCK * ends.blocks <= Arrived()
    }

    /** Conservation: what the host has put in is what the card took and what the FIFO holds. */
    ghost predicate Tx()
      reads `fifo, `taken, `room, `pushed, `length, `ends
    {
      && pushed == taken + fifo
      && |taken| % WORD == 0
      && |taken| <= room <= length
      && (ends.data ==> |taken| == length)
      && BLOCK * ends.blocks <= |taken|
    }

    ghost predicate Valid()
      reads this
    {
      && |fifo| <= FIFO_BYTES && |fifo| % WORD == 0 && |pending| % WORD == 0
      && (if reading then Rx() else Tx())
      && Explained(flags, ends, before)
    }

    /** No word has passed the host in this transfer, so no block and no data can have ended. */
    ghost predicate Idle()
      reads `reading, `got, `pushed, `length
    {
      length >= BLOCK && if reading then got == [] else pushed == []
    }

    /** DATAEND is down and will not come up any more for this transfer. */
    ghost predicate NoDataEndToCome()
      reads `reading, `got, `pushed, `length, `flags, `ends
    {
      DATAEND !in flags && (ends.data || ends.closed || Idle())
    }

    /** DBCKEND is down and will not come up any more for this transfer. */
    ghost predicate NoBlockEndToCome()
      reads `reading, `got, `pushed, `length, `flags, `ends
    {
      DBCKEND !in flags && (BLOCK * (ends.blocks + 1) > length || ends.closed || Idle())
    }

    /** Between transfers: on prompt hardware no end flag is up or to come. */
    ghost predicate Settled()
      reads this
    {
      Valid() && (prompt ==> NoDataEndToCome() && NoBlockEndToCome())
    }

    /** What was not to come is still not to come. */
    twostate predicate FreshnessKept()
      reads `reading, `got, `pushed, `length, `flags, `ends
    {
      && (old(NoDataEndToCome()) ==> NoDataEndToCome())
      && (old(NoBlockEndToCome()) ==> NoBlockEndToCome())
    }

    twostate predicate Progressed()
      reads this
    {
      Later(old(flags), old(ends), flags, ends)
    }

    constructor (prompt: bool)
      ensures Settled() && flags == {} && NoDataEndToCome() && NoBlockEndToCome() && misled == 0
      ensures this.prompt == prompt
    {
      this.prompt := prompt;
      reading, got, fifo, pending, taken, room, length, timer := false, [], [], [], [], 0, 0, 0;
      flags, ends, before := {}, Ends(true, 0, false), {};
      source, pushed, cleared, starts, misled := [], [], {}, 0, 0;
    }

    // ---------- the hardware ----------

    /** The card's next word enters the FIFO. */
    method PushWord()
      requires Valid() && reading && pending != [] && |fifo| < FIFO_BYTES
      modifies `fifo, `pending
      ensures Valid() && Progressed()
      ensures fifo == old(fifo) + old(pending)[..WORD] && pending == old(pending)[WORD..]
    {
      assert got + fifo + pending == got + (fifo + pending[..WORD]) + pending[WORD..];
      fifo, pending := fifo + pending[..WORD], pending[WORD..];
    }

    /** The card takes the next word from the FIFO. */
    method PassWord()
      requires Valid() && !reading && fifo != [] && |taken| + WORD <= room
      modifies `fifo, `taken
      ensures Valid() && Progressed()
      ensures fifo == old(fifo)[WORD..] && taken == old(taken) + old(fifo)[..WORD]
    {
      assert pushed == (taken + fifo[..WORD]) + fifo[WORD..];
      taken, fifo := taken + fifo[..WORD], fifo[WORD..];
    }

    method RaiseDataEnd()
      requires Valid() && !ends.data && !ends.closed && (if reading then Arrived() else |taken|) == length
      modifies `flags, `ends
      ensures Valid() && Progressed()
      ensures flags == old(flags) + {DATAEND} && ends == old(ends).(data := true)
    {
      flags, ends := flags + {DATAEND}, ends.(data := true);
    }

    method RaiseBlockEnd()
      requires Valid() && !ends.closed && (if reading then Arrived() else |taken|) >= BLOCK * (ends.blocks + 1)
      modifies `flags, `ends
      ensures Valid() && Progressed()
      ensures flags == old(flags) + {DBCKEND} && ends == old(ends).(blocks := old(ends).blocks + 1)
    {
      flags, ends := flags + {DBCKEND}, ends.(blocks := ends.blocks + 1);
    }

    method RaiseError(error: Flag)
      requires Valid() && error != DATAEND && error != DBCKEND
      modifies `flags
      ensures Valid() && Progressed()
    {
      flags := flags + {error};
    }

    method RaiseLineError()
      requires Valid()
      modifies `flags
      ensures Valid() && Progressed()
    {
      var error: Flag := *;
      if error != DATAEND && error != DBCKEND {
        RaiseError(error);
      }
    }

    /** One hardware step of a read.  An overrun stops the data path. */
    method StepRead()
      requires Valid() && reading
      modifies `fifo, `pending, `flags, `ends
      ensures Valid() && Progressed()
      ensures |fifo| >= |old(fifo)|
    {
      var event: nat := *;
      if event == 0 && pending != [] && RXOVERR !in flags {
        if |fifo| < FIFO_BYTES {
          PushWord();
        } else {
          RaiseError(RXOVERR);
        }
      } else if event == 1 && Arrived() == length && !ends.data && !ends.closed {
        RaiseDataEnd();
      } else if event == 2 && Arrived() >= BLOCK * (ends.blocks + 1) && !ends.closed {
        RaiseBlockEnd();
      } else {
        RaiseLineError();
      }
    }

    /** One hardware step of a write.  An empty FIFO before the end is an underrun. */
    method StepWrite()
      requires Valid() && !reading
      modifies `fifo, `taken, `flags, `ends
      ensures Valid() && Progressed()
      ensures |fifo| <= |old(fifo)|
    {
      var event: nat := *;
      if event == 0 && |taken| + WORD <= room {
        if fifo != [] {
          PassWord();
        } else {
          RaiseError(TXUNDERR);
        }
      } else if event == 1 && |taken| == length && !ends.data && !ends.closed {
        RaiseDataEnd();
      } else if event == 2 && |taken| >= BLOCK * (ends.blocks + 1) && !ends.closed {
        RaiseBlockEnd();
      } else {
        RaiseLineError();
      }
    }

    /** The hardware runs for a while. */
    method Advance()
      requires Valid()
      modifies `fifo, `pending, `taken, `flags, `ends
      ensures Valid() && Progressed()
      ensures reading ==> |fifo| >= |old(fifo)|
      ensures !reading ==> |fifo| <= |old(fifo)|
    {
      var steps: int := *;
      while steps > 0
        invariant Valid() && Progressed()
        invariant reading ==> |fifo| >= |old(fifo)|
        invariant !reading ==> |fifo| <= |old(fifo)|
      {
        if reading {
          StepRead();
        } else {
          StepWrite();
        }
        steps := steps - 1;
      }
    }

    // ---------- the registers ----------

    /** DATAEND was up when the present transfer was configured if it was up earlier on, and not if it was
        neither up nor to come. */
    twostate predicate DataEndAsFound()
      reads this
    {
      && (DATAEND in old(flags) ==> DATAEND in before)
      && (old(NoDataEndToCome()) ==> DATAEND !in before)
    }

    /** And DBCKEND. */
    twostate predicate BlockEndAsFound()
      reads this
    {
      && (DBCKEND in old(flags) ==> DBCKEND in before)
      && (old(NoBlockEndToCome()) ==> DBCKEND !in before)
    }

    /** The transfer now configured. */
    twostate predicate Started()
      reads this
    {
      && before == flags && old(flags) <= flags && DataEndAsFound() && BlockEndAsFound()
      && ends == NO_ENDS
      && starts == old(starts) + 1 && misled == old(misled)
    }

    ghost method Mark()
      modifies `before, `cleared, `starts
      ensures before == flags && cleared == {} && starts == old(starts) + 1
    {
      before, cleared, starts := flags, {}, starts + 1;
    }

    method SetUpRead(data: seq<bv8>, len: nat, timeout: nat)
      requires |data| <= len && |data| % WORD == 0
      modifies this
      ensures Valid() && before == flags == old(flags) && ends == NO_ENDS
      ensures starts == old(starts) + 1 && misled == old(misled)
      ensures reading && source == data && got == fifo == [] && pending == data && length == len
    {
      reading, got, fifo, pending, length, timer := true, [], [], data, len, timeout;
      source, ends := data, NO_ENDS;
      Mark();
      assert Rx() by {
        assert data == [] + [] + data;
      }
    }

    /** sdio_config_data for a read: the data path starts with an empty FIFO; flags that are up stay up. */
    method StartRead(data: seq<bv8>, len: nat, timeout: nat)
      requires Valid() && |data| <= len && |data| % WORD == 0
      modifies this
      ensures Valid() && Started()
      ensures reading && source == data && got == fifo == [] && pending == data && length == len
    {
      Advance();
      SetUpRead(data, len, timeout);
    }

    method SetUpWrite(len: nat, space: nat, timeout: nat)
      requires space <= len
      modifies this
      ensures Valid()
      ensures before == flags == old(flags) && ends == NO_ENDS
      ensures starts == old(starts) + 1 && misled == old(misled)
      ensures !reading && pushed == taken == [] && length == len && room == space
      ensures got == old(got) && source == old(source)
    {
      reading, fifo, pending, taken, room, length, timer := false, [], [], [], space, len, timeout;
      pushed, ends := [], NO_ENDS;
      Mark();
      assert Tx();
    }

    /** sdio_config_data for a write to a card that can take `space` bytes. */
    method StartWrite(len: nat, space: nat, timeout: nat)
      requires Valid() && space <= len
      modifies this
      ensures Valid() && Started()
      ensures !reading && pushed == [] && length == len && room == space
    {
      Advance();
      SetUpWrite(len, space, timeout);
    }

    /** Reading STA.  Each reading costs the data timer a tick; at zero DTIMEOUT comes up. */
    method ReadSta() returns (sta: Sta)
      requires Valid()
      modifies `fifo, `pending, `taken, `flags, `ends, `timer
      ensures Valid() && Progressed() && sta.flags == flags
      ensures reading ==> |fifo| >= |old(fifo)|
      ensures !reading ==> |fifo| <= |old(fifo)|
      ensures sta.rxHalfFull == (|fifo| >= HALF_BYTES)
      ensures sta.rxFull == (|fifo| == FIFO_BYTES)
      ensures sta.rxAvail == (fifo != [])
      ensures sta.txHalfEmpty == (|fifo| + HALF_BYTES <= FIFO_BYTES)
      ensures if old(timer) == 0 then DTIMEOUT in flags && timer == 0 else timer == old(timer) - 1
    {
      Advance();
      if timer == 0 {
        flags := flags + {DTIMEOUT};
      } else {
        timer := timer - 1;
      }
      sta := Sta(flags, |fifo| >= HALF_BYTES, |fifo| == FIFO_BYTES, fifo != [], |fifo| + HALF_BYTES <= FIFO_BYTES);
    }

    method TakeWord() returns (w: seq<bv8>)
      requires Valid() && reading && fifo != []
      modifies `got, `fifo
      ensures Valid() && fifo == old(fifo)[WORD..] && w == old(fifo)[..WORD] && got == old(got) + w
    {
      assert got + fifo + pending == (got + fifo[..WORD]) + fifo[WORD..] + pending;
      w, got, fifo := fifo[..WORD], got + fifo[..WORD], fifo[WORD..];
    }

    /** Reading the FIFO register.  An empty FIFO must not be read. */
    method ReadFifo() returns (w: seq<bv8>)
      requires Valid() && reading && fifo != []
      modifies `got, `fifo, `pending, `taken, `flags, `ends
      ensures Valid() && Progressed()
      ensures |w| == WORD && got == old(got) + w
      ensures |fifo| + WORD >= |old(fifo)|
    {
      Advance();
      w := TakeWord();
    }

    /** Writing the FIFO register.  A full FIFO must not be written. */
    method WriteFifo(w: seq<bv8>)
      requires Valid() && !reading && |w| == WORD && |fifo| + WORD <= FIFO_BYTES
      modifies `fifo, `pending, `taken, `flags, `ends, `pushed
      ensures Valid() && Progressed()
      ensures pushed == old(pushed) + w
      ensures |fifo| <= |old(fifo)| + WORD
    {
      Advance();
      fifo := fifo + w;
      pushed := pushed + w;
      assert pushed == taken + fifo;
    }

    method Clear()
      requires Valid()
      modifies `flags, `ends
      ensures Valid() && flags == old(flags) * {STBITERR} && ends == old(ends).(closed := prompt)
    {
      flags, ends := flags * {STBITERR}, ends.(closed := prompt);
    }

    /** clear_flags_sdio(SDIO_MASK_STATIC_DATA_FLAGS).  The mask leaves STBITERR out, and only on prompt
        hardware does the clear end the transfer: elsewhere an end flag not yet raised can still come up. */
    method ClearDataFlags()
      requires Valid()
      modifies `fifo, `pending, `taken, `flags, `ends, `cleared
      ensures old(flags) <= cleared
      ensures Settled() && (old(ends).data ==> ends.data) && old(ends).blocks <= ends.blocks
      ensures (STBITERR in old(flags) ==> STBITERR in flags) && (ReadPasses(flags) <==> STBITERR !in flags)
      ensures DATAEND !in flags && DBCKEND !in flags && ends.closed == prompt
    {
      Advance();
      cleared := flags;
      Clear();
    }
  }

  // ---------- two runs ----------

  ghost predicate Receiving(hw: Sdio, length: nat, arrived: nat)
    reads hw
  {
    && hw.Valid() && hw.reading && hw.flags == {} && hw.ends == NO_ENDS
    && hw.length == length && hw.Arrived() == arrived && |hw.pending| == length - arrived
  }

  method DrainAndClear(hw: Sdio)
    requires hw.Valid() && hw.reading && |hw.fifo| == FIFO_BYTES && STBITERR !in hw.flags && !hw.prompt
    modifies hw`got, hw`fifo, hw`flags, hw`ends
    ensures hw.Valid() && hw.flags == {} && hw.fifo == [] && hw.Arrived() == old(hw.Arrived())
    ensures hw.ends == old(hw.ends).(closed := false)
  {
    for i := 0 to 32
      invariant hw.Valid() && |hw.fifo| == FIFO_BYTES - WORD * i
      invariant hw.flags == old(hw.flags) && hw.ends == old(hw.ends) && hw.Arrived() == old(hw.Arrived())
    {
      var _ := hw.TakeWord();
    }
    hw.Clear();
  }

  /** A single-block read as read_single_block_sd does it: words are taken while the FIFO is full, until
      DBCKEND; the rest is drained, and the flags are cleared.  DATAEND has not come up yet. */
  method ReadBlockEarly(hw: Sdio, block: seq<bv8>)
    requires hw.Valid() && hw.flags == {} && !hw.prompt && |block| == BLOCK
    modifies hw
    ensures hw.Valid() && hw.reading && hw.flags == {} && !hw.ends.data && !hw.ends.closed
    ensures hw.got == hw.source == block && hw.Arrived() == hw.length
  {
    hw.SetUpRead(block, BLOCK, 0);
    for i := 0 to 32
      invariant Receiving(hw, BLOCK, WORD * i) && |hw.fifo| == WORD * i && hw.source == block
    {
      hw.PushWord();
    }
    for i := 32 to 128
      invariant Receiving(hw, BLOCK, WORD * i) && |hw.fifo| == FIFO_BYTES && hw.source == block
    {
      var _ := hw.TakeWord();
      hw.PushWord();
    }
    hw.RaiseBlockEnd();
    assert SingleReadEnds(hw.flags) && ReadPasses(hw.flags);
    DrainAndClear(hw);
  }

  /** The register accesses of a read-modify-write of one block, from reset, in which DATAEND of the read comes
      up only after its clear: the block is read whole, but the write finds its loop over and its checks
      passed, with no start-bit error, no word sent and none taken by the card. */
  method LateDataEndMisleads(block: seq<bv8>) returns (hw: Sdio)
    requires |block| == BLOCK
    ensures fresh(hw) && hw.Valid() && !hw.reading && hw.length == BLOCK && hw.pushed == hw.taken == []
    ensures hw.source == block == hw.got
    ensures DATAEND in hw.before && STBITERR !in hw.flags && WriteEnds(hw.flags) && WritePasses(hw.flags)
  {
    hw := new Sdio(false);
    ReadBlockEarly(hw, block);
    hw.RaiseDataEnd();
    hw.SetUpWrite(BLOCK, BLOCK, 0);
  }

  /** The words of n bytes go through a FIFO that the host empties whenever it is half full. */
  method PassHalves(hw: Sdio, data: seq<bv8>)
    requires hw.Valid() && hw.flags == {} && |data| == 2 * BLOCK
    modifies hw
    ensures Receiving(hw, 2 * BLOCK, 2 * BLOCK) && hw.fifo == []
  {
    hw.SetUpRead(data, 2 * BLOCK, 0);
    for i := 0 to 32
      invariant Receiving(hw, 2 * BLOCK, HALF_BYTES * i) && hw.fifo == []
    {
      for k := 0 to 8
        invariant Receiving(hw, 2 * BLOCK, HALF_BYTES * i + WORD * k) && |hw.fifo| == WORD * k
      {
        hw.PushWord();
      }
      for k := 0 to 8
        invariant Receiving(hw, 2 * BLOCK, HALF_BYTES * (i + 1)) && |hw.fifo| == HALF_BYTES - WORD * k
      {
        var _ := hw.TakeWord();
      }
    }
  }

  /** The register accesses of a read of two blocks and a partial one, from reset, in which DBCKEND of the
      second block comes up only after the clear: the read of the third finds its loop over and its checks
      passed with no word in the FIFO. */
  method LateBlockEndMisleads(data: seq<bv8>, block: seq<bv8>) returns (hw: Sdio)
    requires |data| == 2 * BLOCK && |block| == BLOCK
    ensures fresh(hw) && hw.Valid() && hw.reading && hw.length == BLOCK && hw.source == block
    ensures hw.got == hw.fifo == []
    ensures DBCKEND in hw.before && SingleReadEnds(hw.flags) && ReadPasses(hw.flags)
  {
    hw := new Sdio(false);
    PassHalves(hw, data);
    hw.RaiseBlockEnd();
    hw.RaiseDataEnd();
    assert MultiReadEnds(hw.flags) && ReadPasses(hw.flags);
    hw.Clear();
    hw.RaiseBlockEnd();
    hw.SetUpRead(block, BLOCK, 0);
  }
}
