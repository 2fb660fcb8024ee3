/** Command traces: what the host put on the command line and what came back, the card
    identification protocol as an automaton over such traces, and the RCA discipline. */
module SdTrace {
  import opened SdResponses

  /** What the command path reports: a timeout, a CRC failure (the response registers still hold
      a word), a response word, and for CMD0/CMD15 whether the CMDSENT flag came up. */
  datatype Reply = TimedOut | CrcFail(raw: bv32) | Answered(raw: bv32) | Flagged | NotSent

  datatype Event =
    | Boot                              // init_sd starts: SD.RCA = 0
    | Sent(cmd: nat, arg: bv32)
    | Got(to: nat, reply: Reply)        // the reply to command `to`
    | Enabled(reading: bool, length: nat, timeout: nat)   // DCTRL, DLEN and DTIMER are written

  const CMD_GO_IDLE_STATE: nat := 0
  const CMD_ALL_SEND_CID: nat := 2
  const CMD_SEND_RELATIVE_ADDR: nat := 3
  const ACMD_SET_BUS_WIDTH: nat := 6
  const CMD_SELECT_CARD: nat := 7
  const CMD_SEND_IF_COND: nat := 8
  const CMD_SEND_CSD: nat := 9
  const CMD_STOP_TRANSMISSION: nat := 12
  const CMD_SEND_STATUS: nat := 13
  const CMD_GO_INACTIVE_STATE: nat := 15
  const CMD_READ_SINGLE_BLOCK: nat := 17
  const CMD_READ_MULTIPLE_BLOCK: nat := 18
  const CMD_WRITE_BLOCK: nat := 24
  const CMD_WRITE_MULTIPLE_BLOCK: nat := 25
  const ACMD_SEND_OP_COND: nat := 41
  const CMD_APP_CMD: nat := 55

  /** SD_HIGH_CAPACITY | SD_WINDOW_VOLTAGE */
  const OP_COND_ARG: bv32 := 0x4030_0000

  /** ACMD41 asks for high capacity (bit 30) and the voltages of bits 20 and 21, and nothing else. */
  lemma OpCondAsks(i: bv5)
    ensures (OP_COND_ARG >> i) & 1 == 1 <==> i == 30 || i == 20 || i == 21
  {
  }

  const SD_MAX_VOLT_TRIAL: nat := 40
  const APP_CMD_TRIALS: nat := 8

  function Last<T>(s: seq<T>): T
    requires s != []
  {
    s[|s| - 1]
  }

  function Front<T>(s: seq<T>): (r: seq<T>)
    requires s != []
    ensures |r| == |s| - 1
  {
    s[..|s| - 1]
  }

  // ---------- what the host orders ----------

  /** All the host does but CMD13, the status poll. */
  predicate IsOrder(e: Event) { e.Boot? || e.Enabled? || (e.Sent? && e.cmd != 13) }

  ghost function Orders(t: seq<Event>): seq<Event> {
    if t == [] then [] else Orders(Front(t)) + if IsOrder(Last(t)) then [Last(t)] else []
  }

  lemma OrdersSnoc(t: seq<Event>, e: Event)
    ensures Orders(t + [e]) == Orders(t) + if IsOrder(e) then [e] else []
  {
    assert Front(t + [e]) == t;
  }

  lemma OrdersExchange(t: seq<Event>, e: Event, f: Event)
    requires IsOrder(e) && !IsOrder(f)
    ensures Orders(t + [e, f]) == Orders(t) + [e]
  {
    OrdersSnoc(t, e);
    OrdersSnoc(t + [e], f);
    assert t + [e, f] == t + [e] + [f];
  }

  // ---------- RCA ----------

  predicate Addressed(cmd: nat) {
    || cmd == CMD_SELECT_CARD
    || cmd == CMD_SEND_CSD
    || cmd == CMD_SEND_STATUS
    || cmd == CMD_GO_INACTIVE_STATE
    || cmd == CMD_APP_CMD
  }

  /** The address in force after one more event: a boot or a sent CMD0 resets it, an accepted
      CMD3 answer publishes a new one. */
  function NextRca(rca: bv16, e: Event): bv16 {
    match e
    case Boot => 0
    case Sent(_, _) => rca
    case Enabled(_, _, _) => rca
    case Got(to, reply) =>
      if to == CMD_GO_IDLE_STATE && reply.Flagged? then 0
      else if to == CMD_SEND_RELATIVE_ADDR && reply.Answered? && R6Status(reply.raw) == 0 then RcaField(reply.raw)
      else rca
  }

  function RcaInForce(t: seq<Event>): bv16 {
    if t == [] then 0 else NextRca(RcaInForce(Front(t)), Last(t))
  }

  /** An addressed command carries the address. */
  ghost predicate CarriesAddress(e: Event, rca: bv16) {
    e.Sent? && Addressed(e.cmd) ==> e.arg == RcaArg(rca)
  }

  /** rcas[i] is the address in force before event i; every addressed command carries it. */
  ghost predicate RcaHistory(rcas: seq<bv16>, t: seq<Event>) {
    && |rcas| == |t| + 1 && rcas[0] == 0
    && (forall i {:trigger t[i]} :: 0 <= i < |t| ==> rcas[i + 1] == NextRca(rcas[i], t[i]))
    && (forall i {:trigger t[i]} :: 0 <= i < |t| ==> CarriesAddress(t[i], rcas[i]))
  }

  lemma RcaHistoryGrows(rcas: seq<bv16>, t: seq<Event>, e: Event)
    requires RcaHistory(rcas, t) && CarriesAddress(e, rcas[|t|])
    ensures RcaHistory(rcas + [NextRca(rcas[|t|], e)], t + [e])
  {
  }

  /** The discipline, spelled out: at any position of the trace an addressed command carries the
      address in force there. */
  lemma {:induction false} DisciplineAt(rcas: seq<bv16>, t: seq<Event>, i: nat)
    requires RcaHistory(rcas, t) && i <= |t|
    ensures rcas[i] == RcaInForce(t[..i])
    ensures i < |t| ==> CarriesAddress(t[i], RcaInForce(t[..i]))
  {
    if i > 0 {
      DisciplineAt(rcas, t, i - 1);
      assert Front(t[..i]) == t[..i - 1];
      assert rcas[i - 1 + 1] == NextRca(rcas[i - 1], t[i - 1]);
    }
    if i < |t| {
      assert CarriesAddress(t[i], rcas[i]);
    }
  }

  /** Before the first accepted CMD3 answer the address in force is 0. */
  lemma {:induction false} RcaZeroBeforeCmd3(t: seq<Event>)
    requires forall i :: 0 <= i < |t| && t[i].Got? && t[i].to == CMD_SEND_RELATIVE_ADDR && t[i].reply.Answered?
               ==> R6Status(t[i].reply.raw) != 0
    ensures RcaInForce(t) == 0
    decreases |t|
  {
    if t != [] {
      RcaZeroBeforeCmd3(Front(t));
      var e := Last(t);
      assert e == t[|t| - 1];
    }
  }

  /** After an accepted CMD3 answer at position i, with no later boot, CMD0 or CMD3 answer, the
      address in force is the one that answer published. */
  lemma {:induction false} RcaIsLastPublished(t: seq<Event>, i: nat)
    requires i < |t| && t[i].Got? && t[i].to == CMD_SEND_RELATIVE_ADDR && t[i].reply.Answered?
    requires R6Status(t[i].reply.raw) == 0
    requires forall j :: i < j < |t| ==>
      t[j].Sent? || t[j].Enabled? || (t[j].Got? && t[j].to != CMD_GO_IDLE_STATE && t[j].to != CMD_SEND_RELATIVE_ADDR)
    ensures RcaInForce(t) == RcaField(t[i].reply.raw)
    decreases |t|
  {
    if i + 1 < |t| {
      RcaIsLastPublished(Front(t), i);
      assert Last(t) == t[|t| - 1];
    }
  }

  // ---------- card identification ----------

  /** The verdict of CmdResp3Error: a CRC failure is not an error for R3. */
  predicate OcrBusy(reply: Reply) { (reply.Answered? || reply.CrcFail?) && R3Busy(reply.raw) }

  predicate OcrReady(reply: Reply) { (reply.Answered? || reply.CrcFail?) && !R3Busy(reply.raw) }

  predicate R1Accepted(reply: Reply) { reply.Answered? && R1Status(reply.raw) == 0 }

  /** k times CMD55 with address `arg`; only the last is accepted, and nothing else is between. */
  ghost predicate Burst(t: seq<Event>, k: nat, arg: bv32) {
    && |t| == 2 * k
    && (forall i :: 0 <= i < k ==> t[2 * i] == Sent(CMD_APP_CMD, arg))
    && (forall i :: 0 <= i < k ==> t[2 * i + 1].Got? && t[2 * i + 1].to == CMD_APP_CMD)
    && (forall i :: 0 <= i < k ==> (R1Accepted(t[2 * i + 1].reply) <==> i == k - 1))
  }

  /** CMD55 tried k times, never accepted. */
  ghost predicate Refused(t: seq<Event>, k: nat, arg: bv32) {
    && |t| == 2 * k
    && (forall i :: 0 <= i < k ==> t[2 * i] == Sent(CMD_APP_CMD, arg))
    && (forall i :: 0 <= i < k ==> t[2 * i + 1].Got? && t[2 * i + 1].to == CMD_APP_CMD)
    && (forall i :: 0 <= i < k ==> !R1Accepted(t[2 * i + 1].reply))
  }

  /** The APP_CMD flag send_command_specific looks at: that of the last answer that came, or what the local
      word held before. */
  ghost function AppFlag(t: seq<Event>, initial: bool): bool {
    if t == [] then initial
    else if Last(t).Got? && Last(t).reply.Answered? then R1AppCmd(Last(t).reply.raw)
    else AppFlag(Front(t), initial)
  }

  lemma AppFlagOver(t: seq<Event>, initial: bool, sent: Event, reply: Reply)
    requires sent.Sent?
    ensures AppFlag(t + [sent, Got(CMD_APP_CMD, reply)], initial)
         == if reply.Answered? then R1AppCmd(reply.raw) else AppFlag(t, initial)
  {
    var t2 := t + [sent, Got(CMD_APP_CMD, reply)];
    assert Front(t2) == t + [sent];
    assert Front(t + [sent]) == t;
  }

  /** After each of the first k tries the flag was set, so that another was made. */
  ghost predicate Insisted(t: seq<Event>, k: nat, initial: bool) {
    2 * k <= |t| && forall i :: 1 <= i <= k ==> AppFlag(t[..2 * i], initial)
  }

  lemma RefusedGrows(t: seq<Event>, k: nat, arg: bv32, reply: Reply)
    requires Refused(t, k, arg)
    ensures
      var t' := t + [Sent(CMD_APP_CMD, arg), Got(CMD_APP_CMD, reply)];
      if R1Accepted(reply) then Burst(t', k + 1, arg) else Refused(t', k + 1, arg)
  {
    var t' := t + [Sent(CMD_APP_CMD, arg), Got(CMD_APP_CMD, reply)];
    assert t'[2 * k] == Sent(CMD_APP_CMD, arg) && t'[2 * k + 1] == Got(CMD_APP_CMD, reply);
  }

  /** One polling round: 1..8 CMD55 with RCA 0, then at once ACMD41, and its answer. */
  ghost predicate Round(t: seq<Event>, busy: bool) {
    && 4 <= |t| <= 2 * APP_CMD_TRIALS + 2
    && |t| % 2 == 0
    && Burst(t[..|t| - 2], |t| / 2 - 1, 0)
    && t[|t| - 2] == Sent(ACMD_SEND_OP_COND, OP_COND_ARG)
    && t[|t| - 1].Got? && t[|t| - 1].to == ACMD_SEND_OP_COND
    && (if busy then OcrBusy(t[|t| - 1].reply) else OcrReady(t[|t| - 1].reply))
  }

  lemma RoundOf(burst: seq<Event>, k: nat, reply: Reply, busy: bool)
    requires Burst(burst, k, 0) && 1 <= k <= APP_CMD_TRIALS
    requires if busy then OcrBusy(reply) else OcrReady(reply)
    ensures Round(burst + [Sent(ACMD_SEND_OP_COND, OP_COND_ARG), Got(ACMD_SEND_OP_COND, reply)], busy)
  {
    var t := burst + [Sent(ACMD_SEND_OP_COND, OP_COND_ARG), Got(ACMD_SEND_OP_COND, reply)];
    assert t[..2 * k] == burst;
  }

  ghost function Flatten(rounds: seq<seq<Event>>): seq<Event> {
    if rounds == [] then [] else Flatten(Front(rounds)) + Last(rounds)
  }

  lemma FlattenSnoc(rounds: seq<seq<Event>>, t: seq<Event>)
    ensures Flatten(rounds + [t]) == Flatten(rounds) + t
  {
    assert Front(rounds + [t]) == rounds;
  }

  ghost predicate AllBusy(rounds: seq<seq<Event>>) {
    forall i :: 0 <= i < |rounds| ==> Round(rounds[i], true)
  }

  /** Boot, CMD0, CMD8, and CMD0 again iff CMD8 timed out. */
  ghost predicate Opening(t: seq<Event>) {
    && |t| >= 5
    && t[..4] == [Boot, Sent(CMD_GO_IDLE_STATE, 0), Got(CMD_GO_IDLE_STATE, Flagged),
      Sent(CMD_SEND_IF_COND, CHECK_PATTERN)]
    && t[4].Got? && t[4].to == CMD_SEND_IF_COND
    && (if t[4].reply.TimedOut?
        then t[5..] == [Sent(CMD_GO_IDLE_STATE, 0), Got(CMD_GO_IDLE_STATE, Flagged)]
        else |t| == 5 && t[4].reply.Answered? && R7Status(t[4].reply.raw) == 0)
  }

  /** CMD2, CMD3 and their answers. */
  ghost predicate Closing(t: seq<Event>, rca: bv16) {
    && |t| == 4
    && t[0] == Sent(CMD_ALL_SEND_CID, 0)
    && t[1].Got? && t[1].to == CMD_ALL_SEND_CID && t[1].reply.Answered?
    && t[2] == Sent(CMD_SEND_RELATIVE_ADDR, 0)
    && t[3].Got? && t[3].to == CMD_SEND_RELATIVE_ADDR && t[3].reply.Answered?
    && R6Status(t[3].reply.raw) == 0 && RcaField(t[3].reply.raw) == rca
  }

  /** A successful card identification (section 4.2 of the SD Physical Layer Simplified Specification):
      opening, up to 39 busy rounds, one ready round, closing. */
  datatype Identification = Identification(opening: seq<Event>, busy: seq<seq<Event>>, last: seq<Event>,
    closing: seq<Event>) {
    ghost predicate Valid(rca: bv16) {
      && Opening(opening)
      && |busy| < SD_MAX_VOLT_TRIAL && AllBusy(busy)
      && Round(last, false)
      && Closing(closing, rca)
    }

    ghost function Events(): seq<Event> {
      opening + Flatten(busy) + last + closing
    }
  }

  lemma {:induction false} FlattenLength(rounds: seq<seq<Event>>)
    requires AllBusy(rounds)
    ensures 4 * |rounds| <= |Flatten(rounds)| <= 18 * |rounds|
    decreases |rounds|
  {
    if rounds != [] {
      FlattenLength(Front(rounds));
      assert Round(rounds[|rounds| - 1], true);
    }
  }

  /** A successful identification is at most 731 events long, so at most 365 commands. */
  lemma IdentificationLength(id: Identification, rca: bv16)
    requires id.Valid(rca)
    ensures 13 <= |id.Events()| <= 731
  {
    FlattenLength(id.busy);
  }

  /** What a polling round can contain, position by position: section 4.3.9 of the SD Physical Layer
      Simplified Specification asks that ACMD41 directly follow an accepted CMD55. */
  lemma RoundEvents(t: seq<Event>, busy: bool, i: nat)
    requires Round(t, busy) && i < |t|
    ensures t[i] == Sent(CMD_APP_CMD, 0)
         || (t[i].Got? && t[i].to == CMD_APP_CMD)
         || (i == |t| - 2 && t[i] == Sent(ACMD_SEND_OP_COND, OP_COND_ARG)
             && t[i - 1].Got? && t[i - 1].to == CMD_APP_CMD && R1Accepted(t[i - 1].reply))
         || (i == |t| - 1 && t[i].Got? && t[i].to == ACMD_SEND_OP_COND)
  {
    var k := |t| / 2 - 1;
    var burst := t[..2 * k];
    if i < 2 * k {
      assert burst[i] == t[i];
      assert i == 2 * (i / 2) || i == 2 * (i / 2) + 1;
      assert 0 <= i / 2 < k;
    } else if i == 2 * k {
      assert burst[2 * (k - 1) + 1] == t[i - 1];
    }
  }

  /** In the busy part every ACMD41 directly follows an accepted CMD55 and is answered by
      "busy", no other command is sent, every CMD55 carries RCA 0, and no CMD3 answer occurs. */
  lemma {:induction false} BusyEvents(rounds: seq<seq<Event>>, i: nat)
    requires AllBusy(rounds) && i < |Flatten(rounds)|
    ensures
      var t := Flatten(rounds);
      || t[i] == Sent(CMD_APP_CMD, 0)
      || (t[i].Got? && t[i].to == CMD_APP_CMD)
      || (0 < i && t[i] == Sent(ACMD_SEND_OP_COND, OP_COND_ARG)
          && t[i - 1].Got? && t[i - 1].to == CMD_APP_CMD && R1Accepted(t[i - 1].reply))
      || (t[i].Got? && t[i].to == ACMD_SEND_OP_COND && OcrBusy(t[i].reply))
    decreases |rounds|
  {
    var front, last := Front(rounds), Last(rounds);
    var cut := |Flatten(front)|;
    if i < cut {
      BusyEvents(front, i);
    } else {
      assert last == rounds[|rounds| - 1];
      RoundEvents(last, true, i - cut);
    }
  }
}
