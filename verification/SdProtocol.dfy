/** The command half of drivers/devices/SD/SD.c: the global `SD` record and the commands that
    read and change it.  The card is arbitrary: every reply is chosen nondeterministically.
    A ghost trace records what goes over the command line. */
module SdProtocol {
  import opened Common
  import opened SdResponses
  import MathPow
  import opened SdTrace

  const CARD_V_UNKNOWN: int := 0
  const CARD_V1_X: int := 1
  const CARD_V2_X: int := 2
  const CARD_SDSC: int := 3
  const CARD_SDHC: int := 4
  const CARD_SDXC: int := 5

  const IDLE_STATE: bv32 := 0
  const READY_STATE: bv32 := 1
  const TRAN_STATE: bv32 := 4

  const READY_TRIALS: nat := 500
  const BIT4_WIDTH_SD: bv32 := 2
  const GIB: nat := 0x4000_0000

  function R1Verdict(reply: Reply): int {
    match reply
    case TimedOut => ERROR_WAIT_TIME
    case Answered(raw) => R1Status(raw)
    case _ => ERROR_CRC
  }

  /** The last thing on the command line is this command, and nothing has answered it: only then does a wait
      for its answer end.  Every answer that was read has had its flags cleared. */
  ghost predicate AnswerDue(t: seq<Event>, cmd: nat) {
    t != [] && Last(t).Sent? && Last(t).cmd == cmd
  }

  ghost predicate AnswerTo(e: Event, cmd: nat) {
    e.Got? && e.to == cmd
  }

  /** The last CMD13 answer says: no error, ready for data, in the transfer state. */
  ghost predicate SaysReady(t: seq<Event>) {
    && t != []
    && Last(t).Got? && Last(t).to == CMD_SEND_STATUS && R1Accepted(Last(t).reply)
    && R1Ready(Last(t).reply.raw) && CurrentState(Last(t).reply.raw) == TRAN_STATE
  }

  ghost function ResetEvents(status: int): seq<Event> {
    [Sent(CMD_GO_IDLE_STATE, 0), Got(CMD_GO_IDLE_STATE, if status == 0 then Flagged else NotSent)]
  }

  /** CMD15 to the address, and CMD0 exactly if that was sent. */
  ghost predicate Inactivation(t: seq<Event>, rca: bv16) {
    && |t| >= 2
    && t[0] == Sent(CMD_GO_INACTIVE_STATE, RcaArg(rca))
    && t[1].Got? && t[1].to == CMD_GO_INACTIVE_STATE
    && match t[1].reply {
         case Flagged => t[2..] == ResetEvents(0) || t[2..] == ResetEvents(ERROR_SENT_DATA)
         case NotSent => |t| == 2
         case _ => false
       }
  }

  /** CMD2, or CMD2 and CMD3, of which the last was not accepted, and then the card is sent inactive. */
  ghost predicate Abandoned(t: seq<Event>, rca: bv16) {
    && |t| >= 2
    && t[0] == Sent(CMD_ALL_SEND_CID, 0)
    && t[1].Got? && t[1].to == CMD_ALL_SEND_CID
    && if !t[1].reply.Answered? then Inactivation(t[2..], rca) else
         && |t| >= 4
         && t[2] == Sent(CMD_SEND_RELATIVE_ADDR, 0)
         && t[3].Got? && t[3].to == CMD_SEND_RELATIVE_ADDR
         && !(t[3].reply.Answered? && R6Status(t[3].reply.raw) == 0)
         && Inactivation(t[4..], rca)
  }

  /** The last answer on the line is a refusal, or a status that does not say ready. */
  ghost predicate Refuses(t: seq<Event>) {
    t != [] && Last(t).Got? && !(R1Accepted(Last(t).reply) && (Last(t).to == CMD_SEND_STATUS ==> SaysReady(t)))
  }

  /** How the opening can fail: the interface stays off, a CMD0 does not go out, or CMD8 is answered, but
      not accepted. */
  ghost predicate OpeningFailed(t: seq<Event>, status: int) {
    var reset := [Boot, Sent(0, 0), Got(0, Flagged)];
    || (status == -1 && (t == [Boot] || t == [Boot, Sent(0, 0), Got(0, NotSent)]))
    || (|t| >= 5 && t[..4] == reset + [Sent(8, CHECK_PATTERN)] && AnswerTo(t[4], 8)
        && if t[4].reply.TimedOut?
           then status == -1 && t[5..] == [Sent(0, 0), Got(0, NotSent)]
           else status == -2 && |t| == 5 && !(t[4].reply.Answered? && R7Status(t[4].reply.raw) == 0))
  }

  /** CMD55 was given up: after eight tries, or when the answers stopped saying APP_CMD. */
  ghost predicate GivenUp(t: seq<Event>, k: nat, arg: bv32, flag: bool) {
    && Refused(t, k, arg) && 1 <= k <= 8 && Insisted(t, k - 1, flag)
    && (k == 8 || !AppFlag(t, flag))
  }

  /** How a polling round can fail after k CMD55: none is accepted, or ACMD41 is not answered at all. */
  ghost predicate RoundFailed(t: seq<Event>, k: nat, flag: bool) {
    || GivenUp(t, k, 0, flag)
    || (1 <= k <= 8 && |t| >= 2 * k + 2 && Burst(t[..2 * k], k, 0)
        && t[2 * k] == Sent(ACMD_SEND_OP_COND, OP_COND_ARG) && t[2 * k + 1] == Got(ACMD_SEND_OP_COND, TimedOut)
        && Inactivation(t[2 * k + 2..], 0))
  }

  ghost predicate SomeRoundFailed(t: seq<Event>) {
    exists k, flag :: RoundFailed(t, k, flag)
  }

  /** How a whole init_sd can fail: in its opening, after 40 busy rounds or in a round that fails, or because
      CMD2 or CMD3 is refused. */
  ghost predicate IdentificationFailed(id: Identification, status: int) {
    if !Opening(id.opening) then
      OpeningFailed(id.opening, status) && id.busy == [] && id.last == id.closing == []
    else
      && status == -1 && AllBusy(id.busy)
      && if id.closing == []
         then (|id.busy| == 40 && id.last == []) || (|id.busy| < 40 && SomeRoundFailed(id.last))
         else |id.busy| < 40 && Round(id.last, false) && Abandoned(id.closing, 0)
  }

  /** Behind `before`: CMD9 that is not answered, or answered with an unknown structure. */
  ghost predicate DescribeFailed(t: seq<Event>, before: seq<Event>, rca: bv16) {
    var n := |before|;
    && |t| == n + 2 && t[..n] == before
    && t[n] == Sent(CMD_SEND_CSD, RcaArg(rca)) && AnswerTo(t[n + 1], CMD_SEND_CSD)
    && !(t[n + 1].reply.Answered? && CsdStructure(t[n + 1].reply.raw) <= 1)
  }

  /** Behind `before`: CMD9, and CMD7 that is refused, or lost without the card becoming ready. */
  ghost predicate SelectFailed(t: seq<Event>, before: seq<Event>, rca: bv16) {
    Addressing(t, before, rca) && !R1Accepted(t[|before| + 3].reply) && Refuses(t)
  }

  /** Behind `before`: CMD9, its answer, and CMD7, both to the address; nothing but status polls follows. */
  ghost predicate Addressing(t: seq<Event>, before: seq<Event>, rca: bv16) {
    var n := |before|;
    && |t| > n + 3
    && t[..n] == before
    && t[n] == Sent(CMD_SEND_CSD, RcaArg(rca))
    && AnswerTo(t[n + 1], CMD_SEND_CSD) && t[n + 1].reply.Answered?
    && t[n + 2] == Sent(CMD_SELECT_CARD, RcaArg(rca))
    && AnswerTo(t[n + 3], CMD_SELECT_CARD)
    && Orders(t) == Orders(before) + [Sent(9, RcaArg(rca)), Sent(7, RcaArg(rca))]
  }

  /** The card took CMD7, or became ready although the answer was lost. */
  ghost predicate Selects(t: seq<Event>, before: seq<Event>, rca: bv16) {
    && Addressing(t, before, rca)
    && var reply := t[|before| + 3].reply;
       R1Accepted(reply) || (reply.TimedOut? && SaysReady(t))
  }

  /** Behind `before`: ACMD6 after an accepted CMD55, refused, and then the card is sent inactive. */
  ghost predicate WidthRefused(t: seq<Event>, before: seq<Event>, burst: seq<Event>, k: nat, rca: bv16) {
    var n := |before + burst| + 1;
    && Burst(burst, k, RcaArg(rca)) && 1 <= k <= APP_CMD_TRIALS
    && |t| > n && t[..n] == before + burst + [Sent(ACMD_SET_BUS_WIDTH, BIT4_WIDTH_SD)]
    && AnswerTo(t[n], ACMD_SET_BUS_WIDTH) && !R1Accepted(t[n].reply)
    && Inactivation(t[n + 1..], rca)
  }

  /** Behind `before`: up to eight CMD55, the last accepted, and at once ACMD6 for four lines, accepted. */
  ghost predicate WidthIsSet(t: seq<Event>, before: seq<Event>, burst: seq<Event>, k: nat, rca: bv16) {
    && Burst(burst, k, RcaArg(rca)) && 1 <= k <= APP_CMD_TRIALS
    && t != []
    && Front(t) == before + burst + [Sent(ACMD_SET_BUS_WIDTH, BIT4_WIDTH_SD)]
    && AnswerTo(Last(t), ACMD_SET_BUS_WIDTH) && R1Accepted(Last(t).reply)
  }

  // ---------- capacity ----------

  /** The capacity a version 1 CSD stands for in the driver: (C_SIZE + 1) * 2^C_SIZE_MULT * 2^READ_BL_LEN. */
  function CapacityV1(size: nat, mult: nat, blLen: nat): nat {
    (size + 1) * MathPow.Pow(2, mult) * MathPow.Pow(2, blLen)
  }

  /** (C_SIZE + 1) * 512 KiB (section 5.3.3 of the SD Physical Layer Simplified Specification). */
  function CapacityV2(size: nat): nat { (size + 1) * 0x8_0000 }

  lemma CapacityIn32Bits(size: nat, mult: nat, blLen: nat)
    requires mult < 32 && blLen < 32
    ensures (size + 1) * (MathPow.Pow(2, mult) % UINT32) % UINT32 * (MathPow.Pow(2, blLen) % UINT32) % UINT32
         == CapacityV1(size, mult, blLen) % UINT32
  {
    MathPow.PowerOfTwoFits(mult);
    MathPow.PowerOfTwoFits(blLen);
    MathPow.MulMod((size + 1) * MathPow.Pow(2, mult), MathPow.Pow(2, blLen));
  }

  /** The product is taken in 32 bits: the recorded capacity is the card's iff C_SIZE is below 8191, that is,
      iff the card is smaller than 4 GiB; and so the test for more than 32 GiB is right iff the card has
      at most 32 GiB (rounded down to whole GiB). */
  lemma CapacityIsExact(size: nat)
    ensures CapacityV2(size) % UINT32 == CapacityV2(size) <==> size < 8191
    ensures (CapacityV2(size) % UINT32 / GIB > 32 <==> CapacityV2(size) / GIB > 32) <==> CapacityV2(size) / GIB <= 32
  {
  }

  ghost predicate LostAnswer(e: Event) {
    e.Got? && (R1Verdict(e.reply) == ERROR_WAIT_TIME || R1Verdict(e.reply) == ERROR_CRC)
  }

  class SdHost {
    var rca: bv16
    var state: bv32
    var version: int
    var voltage: bv32
    var maxSize: nat
    ghost var trace: seq<Event>
    ghost var rcas: seq<bv16>

    /** Every addressed command ever sent carried the address in force, and SD.RCA is that address. */
    ghost predicate Valid()
      reads this
    {
      RcaHistory(rcas, trace) && rca == rcas[|trace|]
    }

    constructor ()
      ensures Valid() && trace == []
    {
      rca, state, version, voltage, maxSize, trace, rcas := 0, 0, 0, 0, 0, [], [0];
    }

    /** One more event on the command line. */
    ghost method Record(e: Event)
      requires RcaHistory(rcas, trace) && CarriesAddress(e, rcas[|trace|])
      modifies `trace, `rcas
      ensures RcaHistory(rcas, trace)
      ensures trace == old(trace) + [e] && rcas[|trace|] == NextRca(old(rcas)[|old(trace)|], e)
    {
      RcaHistoryGrows(rcas, trace, e);
      rcas, trace := rcas + [NextRca(rcas[|trace|], e)], trace + [e];
    }

    /** send_command_sdio */
    method Send(cmd: nat, arg: bv32)
      requires Valid()
      requires Addressed(cmd) ==> arg == RcaArg(rca)
      modifies `trace, `rcas
      ensures Valid() && trace == old(trace) + [Sent(cmd, arg)]
    {
      Record(Sent(cmd, arg));
    }

    /** The data path is configured and enabled. */
    ghost method Enable(reading: bool, length: nat, timeout: nat)
      requires Valid()
      modifies `trace, `rcas
      ensures Valid() && trace == old(trace) + [Enabled(reading, length, timeout)]
      ensures Orders(trace) == Orders(old(trace)) + [Enabled(reading, length, timeout)]
    {
      OrdersSnoc(trace, Enabled(reading, length, timeout));
      Record(Enabled(reading, length, timeout));
    }

    /** The wait for CMDREND, CTIMEOUT or CCRCFAIL, and the response register. */
    method Await(to: nat) returns (reply: Reply)
      requires Valid() && AnswerDue(trace, to)
      modifies `trace, `rcas
      ensures trace == old(trace) + [Got(to, reply)]
      ensures RcaHistory(rcas, trace) && rcas[|trace|] == NextRca(rca, Got(to, reply))
      ensures to != CMD_GO_IDLE_STATE && to != CMD_SEND_RELATIVE_ADDR ==> Valid()
      ensures reply.TimedOut? || reply.CrcFail? || reply.Answered?
    {
      var outcome: nat := *;
      var raw: bv32 := *;
      reply := if outcome == 0 then TimedOut else if outcome == 1 then CrcFail(raw) else Answered(raw);
      Record(Got(to, reply));
    }

    /** CmdNoRespError */
    method AwaitSent(to: nat) returns (status: int)
      requires Valid() && AnswerDue(trace, to)
      modifies `trace, `rcas
      ensures status == 0 || status == ERROR_SENT_CMD
      ensures trace == old(trace) + [Got(to, if status == 0 then Flagged else NotSent)]
      ensures RcaHistory(rcas, trace) && rcas[|trace|] == if to == CMD_GO_IDLE_STATE && status == 0 then 0 else rca
    {
      var ok: bool := *;
      status := if ok then 0 else ERROR_SENT_CMD;
      Record(Got(to, if ok then Flagged else NotSent));
    }

    /** CmdResp1Error */
    method Resp1(to: nat) returns (status: int, reply: Reply)
      requires Valid() && AnswerDue(trace, to) && to != CMD_GO_IDLE_STATE && to != CMD_SEND_RELATIVE_ADDR
      modifies `trace, `rcas, `state
      ensures Valid() && trace == old(trace) + [Got(to, reply)]
      ensures status == R1Verdict(reply) && status <= 0 && (status == 0 <==> R1Accepted(reply))
      ensures reply.Answered? ==> state == CurrentState(reply.raw)
    {
      reply := Await(to);
      status := R1Verdict(reply);
      if reply.Answered? {
        state := CurrentState(reply.raw);
        R1AcceptsIffNoErrorBit(reply.raw);
      }
    }

    /** reset_sd */
    method Reset() returns (status: int)
      requires Valid()
      modifies this
      ensures Valid()
      ensures status == 0 || status == ERROR_SENT_DATA
      ensures trace == old(trace) + ResetEvents(status)
      ensures status == 0 ==> rca == 0 && state == IDLE_STATE && version == CARD_V_UNKNOWN
      ensures status != 0 ==> rca == old(rca) && state == old(state) && version == old(version)
    {
      Send(CMD_GO_IDLE_STATE, 0);
      status := AwaitSent(CMD_GO_IDLE_STATE);
      assert trace == old(trace) + ResetEvents(status);
      if status != 0 {
        return ERROR_SENT_DATA;
      }
      state, version, rca := IDLE_STATE, CARD_V_UNKNOWN, 0;
    }

    /** set_inactive_state: CMD15, and CMD0 if that was sent. */
    method SetInactive() returns (status: int, ghost t: seq<Event>)
      requires Valid()
      modifies this
      ensures Valid()
      ensures trace == old(trace) + t && Inactivation(t, old(rca))
      ensures status == if t[1].reply.Flagged? then 0 else ERROR_SENT_DATA
    {
      Send(CMD_GO_INACTIVE_STATE, RcaArg(rca));
      status := AwaitSent(CMD_GO_INACTIVE_STATE);
      t := [Sent(CMD_GO_INACTIVE_STATE, RcaArg(old(rca))),
        Got(CMD_GO_INACTIVE_STATE, if status == 0 then Flagged else NotSent)];
      assert trace == old(trace) + t;
      if status != 0 {
        status := ERROR_SENT_DATA;
        return;
      }
      var reset := Reset();
      ghost var again := ResetEvents(reset);
      t := t + again;
      assert trace == old(trace) + t;
    }

    /** One CMD55 of send_command_specific, after k refused ones.  On a timeout the APP_CMD flag tested
        is whatever the local status word held before. */
    method TryAppCmd(flag: bool, ghost start: seq<Event>, ghost tried: seq<Event>, ghost k: nat, ghost initial: bool)
      returns (status: int, appFlag: bool, ghost burst: seq<Event>)
      requires Valid() && Refused(tried, k, RcaArg(rca)) && trace == start + tried
      requires flag == AppFlag(tried, initial) && Insisted(tried, k, initial)
      modifies `trace, `rcas, `state
      ensures Valid() && status <= 0 && trace == start + burst && |burst| == 2 * k + 2
      ensures if status == 0 then Burst(burst, k + 1, RcaArg(rca)) else Refused(burst, k + 1, RcaArg(rca))
      ensures status == R1Verdict(burst[2 * k + 1].reply)
      ensures appFlag == AppFlag(burst, initial) && Insisted(burst, k, initial)
    {
      Send(CMD_APP_CMD, RcaArg(rca));
      var reply;
      status, reply := Resp1(CMD_APP_CMD);
      appFlag := if reply.Answered? then R1AppCmd(reply.raw) else flag;
      RefusedGrows(tried, k, RcaArg(rca), reply);
      AppFlagOver(tried, initial, Sent(CMD_APP_CMD, RcaArg(rca)), reply);
      burst := tried + [Sent(CMD_APP_CMD, RcaArg(rca)), Got(CMD_APP_CMD, reply)];
      assert trace == start + burst;
      assert forall i :: 1 <= i <= k ==> burst[..2 * i] == tried[..2 * i];
    }

    /** send_command_specific: CMD55 up to eight times, then the application command.  It gives up with -3 after
        eight tries, and with the verdict on the last answer when that is an error without APP_CMD. */
    method SendAppCommand(appCmd: nat, arg: bv32)
      returns (status: int, ghost burst: seq<Event>, ghost k: nat, ghost initial: bool)
      requires Valid() && !Addressed(appCmd) && appCmd != CMD_SEND_STATUS
      modifies `trace, `rcas, `state
      ensures Valid() && status <= 0
      ensures 1 <= k <= APP_CMD_TRIALS && |burst| == 2 * k
      ensures status == 0 ==> Burst(burst, k, RcaArg(rca)) && trace == old(trace) + burst + [Sent(appCmd, arg)]
      ensures status == 0 ==> Insisted(burst, k - 1, initial)
      ensures status != 0 ==> GivenUp(burst, k, RcaArg(rca), initial) && trace == old(trace) + burst
      ensures status != 0 ==> status == if AppFlag(burst, initial) then -3 else R1Verdict(burst[2 * k - 1].reply)
    {
      var appFlag: bool := *;
      initial := appFlag;
      var attempts := 0;
      burst, k := [], 0;
      while true
        invariant Valid() && rca == old(rca)
        invariant attempts == k < APP_CMD_TRIALS
        invariant Refused(burst, k, RcaArg(rca)) && trace == old(trace) + burst
        invariant appFlag == AppFlag(burst, initial) && Insisted(burst, k, initial)
        decreases APP_CMD_TRIALS - attempts
      {
        status, appFlag, burst := TryAppCmd(appFlag, old(trace), burst, k, initial);
        k := k + 1;
        if status < 0 && !appFlag {
          return;
        } else if status == 0 {
          break;
        }
        assert burst[..2 * k] == burst;
        attempts := attempts + 1;
        if attempts == APP_CMD_TRIALS {
          status := -3;
          return;
        }
      }
      Send(appCmd, arg);
      status := 0;
    }

    /** validateOperatingVoltage: CMD8 and CmdResp7Error */
    method ValidateOperatingVoltage() returns (status: int, reply: Reply)
      requires Valid()
      modifies `trace, `rcas
      ensures Valid()
      ensures trace == old(trace) + [Sent(CMD_SEND_IF_COND, CHECK_PATTERN), Got(CMD_SEND_IF_COND, reply)]
      ensures status == 0 <==> reply.Answered? && R7Status(reply.raw) == 0
      ensures status == ERROR_WAIT_TIME <==> reply.TimedOut?
      ensures !reply.NotSent? && !reply.Flagged?
    {
      Send(CMD_SEND_IF_COND, CHECK_PATTERN);
      reply := Await(CMD_SEND_IF_COND);
      assert trace == old(trace) + [Sent(CMD_SEND_IF_COND, CHECK_PATTERN), Got(CMD_SEND_IF_COND, reply)];
      match reply {
        case TimedOut => status := ERROR_WAIT_TIME;
        case Answered(raw) => status := R7Status(raw);
        case _ => status := ERROR_CRC;
      }
    }

    /** Card type and voltage are those of this OCR. */
    ghost predicate TypeFrom(reply: Reply)
      reads `version, `voltage
    {
      && (reply.Answered? || reply.CrcFail?)
      && voltage == OcrVoltage(reply.raw)
      && version == if OcrHighCapacity(reply.raw) then CARD_SDXC else CARD_SDSC
    }

    /** CmdResp3Error: 1 is "still busy"; a CRC failure is not checked. */
    method Resp3() returns (status: int, reply: Reply)
      requires Valid() && AnswerDue(trace, ACMD_SEND_OP_COND)
      modifies `trace, `rcas, `state, `voltage, `version
      ensures Valid() && trace == old(trace) + [Got(ACMD_SEND_OP_COND, reply)]
      ensures status == if OcrBusy(reply) then 1 else if OcrReady(reply) then 0 else ERROR_WAIT_TIME
      ensures status == 0 ==>
                state == READY_STATE && TypeFrom(reply)
      ensures reply.TimedOut? || reply.CrcFail? || reply.Answered?
      ensures status != 0 ==> state == old(state) && version == old(version) && voltage == old(voltage)
    {
      reply := Await(ACMD_SEND_OP_COND);
      if reply.TimedOut? {
        return ERROR_WAIT_TIME, reply;
      }
      if R3Busy(reply.raw) {
        return 1, reply;
      }
      state := READY_STATE;
      voltage := OcrVoltage(reply.raw);
      version := if OcrHighCapacity(reply.raw) then CARD_SDXC else CARD_SDSC;
      status := 0;
    }

    /** CMD3 and CmdResp6Error */
    method PublishRca() returns (status: int, ghost t: seq<Event>)
      requires Valid()
      modifies `trace, `rcas, `rca, `state
      ensures Valid()
      ensures |t| == 2 && trace == old(trace) + t
      ensures t[0] == Sent(CMD_SEND_RELATIVE_ADDR, 0) && t[1].Got? && t[1].to == CMD_SEND_RELATIVE_ADDR
      ensures status == match t[1].reply
                        case TimedOut => ERROR_WAIT_TIME
                        case Answered(raw) => R6Status(raw)
                        case _ => ERROR_CRC
      ensures rca == if status == 0 then RcaField(t[1].reply.raw) else old(rca)
      ensures state == if t[1].reply.Answered? then CurrentState(t[1].reply.raw) else old(state)
    {
      Send(CMD_SEND_RELATIVE_ADDR, 0);
      var reply := Await(CMD_SEND_RELATIVE_ADDR);
      t := [Sent(CMD_SEND_RELATIVE_ADDR, 0), Got(CMD_SEND_RELATIVE_ADDR, reply)];
      assert trace == old(trace) + t;
      match reply {
        case TimedOut => status := ERROR_WAIT_TIME;
        case Answered(raw) =>
          state := CurrentState(raw);
          status := R6Status(raw);
          if status == 0 {
            rca := RcaField(raw);
          }
        case _ => status := ERROR_CRC;
      }
    }

    /** The first part of init_sd: init_sdio, CMD0, CMD8, and CMD0 again for a card that ignores CMD8. */
    method Open() returns (status: int, ghost t: seq<Event>)
      requires Valid()
      modifies this
      ensures Valid()
      ensures trace == old(trace) + t && |t| <= 7
      ensures status == 0 || status == -1 || status == -2
      ensures rca == 0 && (status == 0 ==> Opening(t))
      ensures status == 0 ==> version == if t[4].reply.TimedOut? then CARD_V_UNKNOWN else CARD_V2_X
      ensures status != 0 ==> OpeningFailed(t, status) && !Opening(t)
    {
      rca := 0;
      Record(Boot);
      t := [Boot];
      var powered: bool := *;
      if !powered {
        status := -1;
        return;
      }
      status := Reset();
      t := t + ResetEvents(status);
      assert trace == old(trace) + t;
      if status != 0 {
        status := -1;
        return;
      }
      var reply;
      status, reply := ValidateOperatingVoltage();
      t := t + [Sent(CMD_SEND_IF_COND, CHECK_PATTERN), Got(CMD_SEND_IF_COND, reply)];
      assert trace == old(trace) + t;
      if status == 0 {
        version := CARD_V2_X;
      } else if status == ERROR_WAIT_TIME {
        version := CARD_V1_X;
        status := Reset();
        ghost var again := ResetEvents(status);
        assert (t + again)[..4] == t[..4] && (t + again)[5..] == again;
        t := t + again;
        status := if status != 0 then -1 else 0;
      } else {
        status := -2;
      }
    }

    /** The end of a polling round: the answer to ACMD41, and CMD15 when there is none. */
    method TakeOcr() returns (status: int, reply: Reply, ghost inactive: seq<Event>)
      requires Valid() && AnswerDue(trace, ACMD_SEND_OP_COND)
      modifies this
      ensures Valid() && status <= 1
      ensures trace == old(trace) + [Got(ACMD_SEND_OP_COND, reply)] + inactive
      ensures status >= 0 ==> rca == old(rca) && inactive == []
      ensures status >= 0 ==> if status == 1 then OcrBusy(reply) else OcrReady(reply)
      ensures status == 0 ==> TypeFrom(reply)
      ensures status < 0 ==> reply == TimedOut && Inactivation(inactive, old(rca))
    {
      status, reply := Resp3();
      inactive := [];
      if status < 0 {
        var ignored;
        ignored, inactive := SetInactive();
      }
    }

    static lemma CutShort(burst: seq<Event>, k: nat, inactive: seq<Event>)
      requires Burst(burst, k, 0) && 1 <= k <= 8 && Inactivation(inactive, 0)
      ensures SomeRoundFailed(
                burst + [Sent(ACMD_SEND_OP_COND, OP_COND_ARG), Got(ACMD_SEND_OP_COND, TimedOut)] + inactive)
    {
      var t := burst + [Sent(ACMD_SEND_OP_COND, OP_COND_ARG), Got(ACMD_SEND_OP_COND, TimedOut)] + inactive;
      assert t[..2 * k] == burst && t[2 * k + 2..] == inactive;
      assert RoundFailed(t, k, true);
    }

    /** One polling round: 1 is busy, 0 is ready, negative is the end of init_sd. */
    method PollOnce() returns (status: int, ghost t: seq<Event>)
      requires Valid() && rca == 0
      modifies this
      ensures Valid()
      ensures status <= 1
      ensures trace == old(trace) + t && |t| <= 22
      ensures status >= 0 ==> rca == 0 && Round(t, status == 1)
      ensures status < 0 ==> SomeRoundFailed(t)
      ensures status == 0 ==> TypeFrom(Last(t).reply)
    {
      ghost var burst, k, flag;
      status, burst, k, flag := SendAppCommand(ACMD_SEND_OP_COND, OP_COND_ARG);
      t := burst;
      if status != 0 {
        assert RoundFailed(t, k, flag);
      } else {
        ghost var inactive;
        var reply;
        status, reply, inactive := TakeOcr();
        t := burst + [Sent(ACMD_SEND_OP_COND, OP_COND_ARG), Got(ACMD_SEND_OP_COND, reply)] + inactive;
        Assemble(old(trace), burst, Sent(ACMD_SEND_OP_COND, OP_COND_ARG), Got(ACMD_SEND_OP_COND, reply), inactive);
        if status < 0 {
          CutShort(burst, k, inactive);
        } else {
          RoundOf(burst, k, reply, status == 1);
          assert t == burst + [Sent(ACMD_SEND_OP_COND, OP_COND_ARG), Got(ACMD_SEND_OP_COND, reply)];
        }
      }
    }

    static lemma Assemble(a: seq<Event>, b: seq<Event>, c: Event, d: Event, e: seq<Event>)
      ensures a + b + [c] + [d] + e == a + (b + [c, d] + e)
    {
    }

    /** The ACMD41 loop of init_sd: busy rounds and one that reports ready, 40 in all at most. */
    method Poll() returns (status: int, ghost busy: seq<seq<Event>>, ghost last: seq<Event>)
      requires Valid() && rca == 0
      modifies this
      ensures Valid()
      ensures status == 0 || status == -1
      ensures AllBusy(busy) && trace == old(trace) + Flatten(busy) + last
      ensures |trace| <= |old(trace)| + 724
      ensures status == 0 ==> |busy| < SD_MAX_VOLT_TRIAL && Round(last, false) && rca == 0
      ensures status == 0 ==> |trace| <= |old(trace)| + 720
      ensures status == 0 ==> TypeFrom(Last(last).reply)
      ensures status != 0 ==> (|busy| == 40 && last == []) || (|busy| < 40 && SomeRoundFailed(last))
    {
      busy, last := [], [];
      var count := 1;
      while count <= SD_MAX_VOLT_TRIAL
        invariant count == |busy| + 1 && |busy| <= SD_MAX_VOLT_TRIAL
        invariant Valid() && rca == 0
        invariant AllBusy(busy) && trace == old(trace) + Flatten(busy)
        invariant |Flatten(busy)| <= 18 * |busy|
      {
        status, last := PollOnce();
        if status < 0 {
          status := -1;
          return;
        } else if status == 1 {
          FlattenSnoc(busy, last);
          busy := busy + [last];
          assert trace == old(trace) + Flatten(busy);
          count := count + 1;
        } else {
          return;
        }
      }
      last := [];
      assert Flatten(busy) + last == Flatten(busy);
      status := -1;
    }

    /** The last part of init_sd: CMD2, CMD3 and the published RCA, or the card is sent inactive. */
    method Close() returns (status: int, ghost t: seq<Event>)
      requires Valid()
      modifies this
      ensures Valid()
      ensures trace == old(trace) + t && |t| <= 8
      ensures status == 0 || status == -1
      ensures status == 0 ==> Closing(t, rca)
      ensures status == 0 ==> version == old(version) && voltage == old(voltage)
      ensures status != 0 ==> Abandoned(t, old(rca))
    {
      Send(CMD_ALL_SEND_CID, 0);
      var reply := Await(CMD_ALL_SEND_CID);
      t := [Sent(CMD_ALL_SEND_CID, 0), Got(CMD_ALL_SEND_CID, reply)];
      assert trace == old(trace) + t;
      status := 0;
      if reply.Answered? {
        ghost var t2;
        status, t2 := PublishRca();
        t := t + t2;
        if status == 0 {
          return;
        }
      }
      var ignored;
      ghost var t3;
      ignored, t3 := SetInactive();
      assert (t + t3)[|t|..] == t3;
      t := t + t3;
      status := -1;
    }

    lemma Regroup(a: seq<Event>, b: seq<Event>, c: seq<Event>, d: seq<Event>, e: seq<Event>)
      ensures a + b + c + d + e == a + (b + c + d + e)
    {
    }

    /** init_sd: card identification.  A run that succeeds has put exactly the identification
        sequence `id` on the command line, one that fails a sequence that says why; every run is at most 735
        events long. */
    method InitSd() returns (status: int, ghost id: Identification)
      requires Valid()
      modifies this
      ensures Valid()
      ensures status == 0 || status == -1 || status == -2
      ensures |trace| <= |old(trace)| + 735
      ensures trace == old(trace) + id.Events()
      ensures if status == 0 then id.Valid(rca) else IdentificationFailed(id, status)
      ensures status == 0 ==> TypeFrom(Last(id.last).reply)
    {
      ghost var opening, busy, last, closing := [], [], [], [];
      status, opening := Open();
      if status == 0 {
        status, busy, last := Poll();
        if status == 0 {
          status, closing := Close();
        }
      }
      id := Identification(opening, busy, last, closing);
      Regroup(old(trace), opening, Flatten(busy), last, closing);
      assert trace == old(trace) + opening + Flatten(busy) + last + closing;
    }

    /** send_status_sd: CMD13.  The flag holds what an earlier answer said when none came. */
    method SendStatus(flag: bool) returns (status: int, readyFlag: bool)
      requires Valid()
      modifies `trace, `rcas, `state
      ensures Valid() && |trace| == |old(trace)| + 2 && old(trace) <= trace
      ensures Orders(trace) == Orders(old(trace))
      ensures status == ERROR_RESPONCE <==> LostAnswer(Last(trace))
      ensures status == 0 && readyFlag && state == TRAN_STATE <==> SaysReady(trace)
      ensures SaysReady(trace) || Refuses(trace)
    {
      Send(CMD_SEND_STATUS, RcaArg(rca));
      OrdersSnoc(old(trace), Sent(CMD_SEND_STATUS, RcaArg(rca)));
      ghost var asked := trace;
      var reply;
      status, reply := Resp1(CMD_SEND_STATUS);
      OrdersSnoc(asked, Got(CMD_SEND_STATUS, reply));
      readyFlag := if reply.Answered? then R1Ready(reply.raw) else flag;
      if status == ERROR_WAIT_TIME || status == ERROR_CRC {
        status := ERROR_RESPONCE;
      }
    }

    /** wait_card_ready: CMD13 until the card is ready in the transfer state, 500 times at most. */
    method WaitCardReady() returns (status: int)
      requires Valid()
      modifies `trace, `rcas, `state
      ensures Valid()
      ensures old(trace) <= trace
      ensures status == 0 ==> SaysReady(trace) && state == TRAN_STATE
      ensures status == 0 || status == ERROR_RESPONCE || status == ERROR_SD_BUSY_TIMEOUT
      ensures |trace| <= |old(trace)| + 2 * READY_TRIALS
      ensures status == ERROR_SD_BUSY_TIMEOUT ==> |trace| == |old(trace)| + 2 * READY_TRIALS
      ensures |trace| >= |old(trace)| + 2
      ensures status == ERROR_RESPONCE ==>
                trace != old(trace) && LostAnswer(Last(trace))
      ensures status != 0 ==> Refuses(trace)
      ensures Orders(trace) == Orders(old(trace))
    {
      var readyFlag := false;
      for attempt := 0 to READY_TRIALS
        invariant Valid() && rca == old(rca)
        invariant old(trace) <= trace && |trace| == |old(trace)| + 2 * attempt
        invariant attempt > 0 ==> Refuses(trace)
        invariant Orders(trace) == Orders(old(trace))
      {
        status, readyFlag := SendStatus(readyFlag);
        if status == ERROR_RESPONCE {
          return;
        }
        if status == 0 && readyFlag && state == TRAN_STATE {
          return 0;
        }
      }
      status := ERROR_SD_BUSY_TIMEOUT;
    }

    /** CmdResp1bError: a timeout is forgiven if the card becomes ready. */
    method Resp1b(to: nat) returns (status: int, reply: Reply)
      requires Valid() && AnswerDue(trace, to) && to != CMD_GO_IDLE_STATE && to != CMD_SEND_RELATIVE_ADDR
      modifies `trace, `rcas, `state
      ensures Valid()
      ensures status <= 0
      ensures old(trace) + [Got(to, reply)] <= trace
      ensures !reply.TimedOut? ==> trace == old(trace) + [Got(to, reply)] && status == R1Verdict(reply)
      ensures status == 0 <==> R1Accepted(reply) || (reply.TimedOut? && SaysReady(trace))
      ensures reply.TimedOut? ==>
                && |trace| > |old(trace)| + 2
                && (status == 0 || status == ERROR_RESPONCE || status == ERROR_SD_BUSY_TIMEOUT)
                && (status == ERROR_SD_BUSY_TIMEOUT ==> |trace| == |old(trace)| + 1 + 2 * READY_TRIALS)
      ensures status != 0 && to != CMD_SEND_STATUS ==> Refuses(trace)
      ensures Orders(trace) == Orders(old(trace))
    {
      status, reply := Resp1(to);
      OrdersSnoc(old(trace), Got(to, reply));
      if status == 0 {
        return;
      }
      if status != ERROR_WAIT_TIME && status < 0 {
        return;
      }
      status := WaitCardReady();
    }

    /** RESP[1] and RESP[2] of a long answer. */
    method LongResponse() returns (r1: bv32, r2: bv32)
    {
      r1, r2 := *, *;
    }

    /** load_csd_sd: CMD9, then the capacity in 32 bits, and the card type.  No card is ever classified SDXC. */
    method LoadCsd() returns (status: int, reply: Reply, r1: bv32, r2: bv32)
      requires Valid()
      modifies `trace, `rcas, `version, `maxSize
      ensures Valid()
      ensures trace == old(trace) + [Sent(CMD_SEND_CSD, RcaArg(rca)), Got(CMD_SEND_CSD, reply)]
      ensures status == if !reply.Answered? then -1 else if CsdStructure(reply.raw) > 1 then -2 else 0
      ensures status == 0 && CsdStructure(reply.raw) == 0 ==>
                && version == CARD_SDSC
                && maxSize == CapacityV1(SizeV1(r1, r2), SizeMult(reply.raw), ReadBlLen(r1)) % UINT32
      ensures status == 0 && CsdStructure(reply.raw) == 1 ==>
                && version == CARD_SDHC
                && maxSize == CapacityV2(SizeV2(r1, r2)) % UINT32
      ensures status != 0 ==> version == old(version) && maxSize == old(maxSize)
    {
      Send(CMD_SEND_CSD, RcaArg(rca));
      reply := Await(CMD_SEND_CSD);
      assert trace == old(trace) + [Sent(CMD_SEND_CSD, RcaArg(rca)), Got(CMD_SEND_CSD, reply)];
      r1, r2 := LongResponse();
      if !reply.Answered? {
        status := -1;
        return;
      }
      if CsdStructure(reply.raw) > 1 {
        status := -2;
        return;
      }
      if CsdStructure(reply.raw) == 0 {
        var blockLen := MathPow.Compute(2, ReadBlLen(r1));
        var mult := MathPow.Compute(2, SizeMult(reply.raw));
        maxSize := (SizeV1(r1, r2) + 1) * mult % UINT32 * blockLen % UINT32;
        CapacityIn32Bits(SizeV1(r1, r2), SizeMult(reply.raw), ReadBlLen(r1));
        version := CARD_SDSC;
      } else {
        maxSize := CapacityV2(SizeV2(r1, r2)) % UINT32;
        version := if maxSize / GIB > 32 then CARD_SDXC else CARD_SDHC;
      }
      status := 0;
    }

    /** The last part of init_sd_card: ACMD6.  A refused CMD55 is only logged, and then the wait is for an
        answer that is not due, so it does not end: `hangs` says that the call is in that wait.  It gets there
        exactly when no CMD55 was accepted. */
    method SetBusWidth() returns (status: int, hangs: bool, ghost burst: seq<Event>, ghost k: nat)
      requires Valid()
      modifies this
      ensures Valid()
      ensures status == 0 || status == -3
      ensures if hangs then Refused(burst, k, RcaArg(old(rca))) else Burst(burst, k, RcaArg(old(rca)))
      ensures hangs ==> rca == old(rca) && trace == old(trace) + burst && !AnswerDue(trace, ACMD_SET_BUS_WIDTH)
      ensures status == 0 && !hangs ==>
                && rca == old(rca) && version == old(version) && maxSize == old(maxSize)
                && WidthIsSet(trace, old(trace), burst, k, rca)
      ensures status != 0 && !hangs ==> WidthRefused(trace, old(trace), burst, k, old(rca))
    {
      ghost var flag;
      status, burst, k, flag := SendAppCommand(ACMD_SET_BUS_WIDTH, BIT4_WIDTH_SD);
      if status != 0 {
        assert Last(trace) == burst[2 * (k - 1) + 1];
        return -3, true, burst, k;
      }
      var reply;
      hangs := false;
      status, reply := Resp1(ACMD_SET_BUS_WIDTH);
      if status < 0 {
        var ignored;
        ghost var t;
        ghost var refused := trace;
        ignored, t := SetInactive();
        status := -3;
        assert trace[..|refused|] == refused && trace[|refused|..] == t;
      }
    }

    static lemma Undescribed(before: seq<Event>, csd: Reply, rca: bv16)
      requires !(csd.Answered? && CsdStructure(csd.raw) <= 1)
      ensures DescribeFailed(before + [Sent(CMD_SEND_CSD, RcaArg(rca)), Got(CMD_SEND_CSD, csd)], before, rca)
    {
    }

    /** The first part of init_sd_card: CMD9. */
    method Describe() returns (status: int, ghost reply: Reply)
      requires Valid()
      modifies `trace, `rcas, `version, `maxSize
      ensures Valid()
      ensures trace == old(trace) + [Sent(CMD_SEND_CSD, RcaArg(rca)), Got(CMD_SEND_CSD, reply)]
      ensures Orders(trace) == Orders(old(trace)) + [Sent(9, RcaArg(rca))]
      ensures status == 0 ==> reply.Answered? && (version == CARD_SDSC || version == CARD_SDHC)
      ensures status == 0 || (status == -1 && DescribeFailed(trace, old(trace), rca))
    {
      var r, r1, r2;
      status, r, r1, r2 := LoadCsd();
      reply := r;
      OrdersExchange(old(trace), Sent(CMD_SEND_CSD, RcaArg(rca)), Got(CMD_SEND_CSD, reply));
      if status < 0 {
        Undescribed(old(trace), reply, rca);
        status := -1;
      }
    }

    method SendSelect() returns (status: int, ghost reply: Reply)
      requires Valid()
      modifies `trace, `rcas, `state
      ensures Valid() && status <= 0
      ensures old(trace) + [Sent(CMD_SELECT_CARD, RcaArg(rca))] + [Got(CMD_SELECT_CARD, reply)] <= trace
      ensures Orders(trace) == Orders(old(trace)) + [Sent(7, RcaArg(rca))]
      ensures status == 0 <==> R1Accepted(reply) || (reply.TimedOut? && SaysReady(trace))
      ensures status != 0 ==> Refuses(trace)
      ensures status == ERROR_SD_BUSY_TIMEOUT ==> |trace| == |old(trace)| + 2 + 2 * READY_TRIALS
    {
      Send(CMD_SELECT_CARD, RcaArg(rca));
      OrdersSnoc(old(trace), Sent(CMD_SELECT_CARD, RcaArg(rca)));
      var r;
      status, r := Resp1b(CMD_SELECT_CARD);
      reply := r;
      if !r.TimedOut? {
        NoBusyCode(r);
      }
    }

    static lemma NoBusyCode(reply: Reply)
      ensures R1Verdict(reply) != ERROR_SD_BUSY_TIMEOUT
    {
    }

    /** And CMD7. */
    method Select() returns (status: int)
      requires Valid()
      modifies `trace, `rcas, `state, `version, `maxSize
      ensures Valid()
      ensures status == 0 ==> Selects(trace, old(trace), rca) && (version == CARD_SDSC || version == CARD_SDHC)
      ensures status == -1 ==>
                || DescribeFailed(trace, old(trace), rca)
                || (SelectFailed(trace, old(trace), rca) && |trace| == |old(trace)| + 4 + 2 * READY_TRIALS)
      ensures status == -2 ==> SelectFailed(trace, old(trace), rca)
      ensures status == 0 || status == -1 || status == -2
    {
      ghost var csd;
      status, csd := Describe();
      if status == 0 {
        ghost var reply;
        status, reply := SendSelect();
        Addressed7(old(trace), csd, reply, trace, rca);
        status := if status == ERROR_SD_BUSY_TIMEOUT then -1 else if status < 0 then -2 else 0;
      }
    }

    static lemma Addressed7(before: seq<Event>, csd: Reply, reply: Reply, t: seq<Event>, rca: bv16)
      requires before + [Sent(CMD_SEND_CSD, RcaArg(rca)), Got(CMD_SEND_CSD, csd)] + [Sent(CMD_SELECT_CARD, RcaArg(rca))]
                 + [Got(CMD_SELECT_CARD, reply)] <= t
      requires csd.Answered?
      requires Orders(t) == Orders(before) + [Sent(9, RcaArg(rca))] + [Sent(7, RcaArg(rca))]
      ensures Addressing(t, before, rca) && t[|before| + 3].reply == reply
    {
      var head := before + [Sent(CMD_SEND_CSD, RcaArg(rca)), Got(CMD_SEND_CSD, csd)]
                  + [Sent(CMD_SELECT_CARD, RcaArg(rca))] + [Got(CMD_SELECT_CARD, reply)];
      assert t[..|head|] == head;
      assert t[..|before|] == head[..|before|] == before;
    }

    /** init_sd_card: CSD, select, bus width.  A call that returns 0 has put CMD9, CMD7 and an accepted
        ACMD6 on the line, and the address is the one it was; one that fails says where. */
    method InitSdCard()
      returns (status: int, hangs: bool, ghost selected: seq<Event>, ghost burst: seq<Event>, ghost k: nat)
      requires Valid()
      modifies this
      ensures Valid()
      ensures -3 <= status <= 0
      ensures hangs ==>
                && Selects(selected, old(trace), rca)
                && Refused(burst, k, RcaArg(rca)) && trace == selected + burst
      ensures status == 0 && !hangs ==>
                && rca == old(rca)
                && (version == CARD_SDSC || version == CARD_SDHC)
                && Selects(selected, old(trace), rca)
                && WidthIsSet(trace, selected, burst, k, rca)
      ensures status == -1 ==>
                || DescribeFailed(trace, old(trace), rca)
                || (SelectFailed(trace, old(trace), rca) && |trace| == |old(trace)| + 4 + 2 * READY_TRIALS)
      ensures status == -2 ==> SelectFailed(trace, old(trace), rca)
      ensures status == -3 && !hangs ==>
                Selects(selected, old(trace), old(rca)) && WidthRefused(trace, selected, burst, k, old(rca))
    {
      hangs, selected, burst, k := false, [], [], 0;
      status := Select();
      if status == 0 {
        selected := trace;
        status, hangs, burst, k := SetBusWidth();
      }
    }
  }
}
