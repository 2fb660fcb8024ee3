/** Response words of the SD card (R1, R3, R6, R7) and how the driver reads them
    (drivers/devices/SD/SD.c, with the bit fields of SD.h). */
module SdResponses {

  const ERROR_CRC: int := -100
  const ERROR_ADDRESS: int := -102
  const ERROR_ILLEGAL_CMD: int := -104
  const ERROR_ERASE_PARAM: int := -106
  const ERROR_CARD_LOCKED: int := -107
  const ERROR_CARD_CONTROLLER: int := -108
  const ERROR_WP_VIOLATION: int := -109
  const ERROR_CARD_ECC: int := -110
  const ERROR_UNKNOWN: int := -111
  const ERROR_OUT_OF_RANGE: int := -112
  const ERROR_WP_ERASE_SKIP: int := -113
  const ERROR_RESET: int := -114
  const ERROR_MASK_VHC: int := -115
  const ERROR_SENT_DATA: int := -117
  const ERROR_SEQ_AKE: int := -118
  const ERROR_CSD_OVERWRITE: int := -120
  const ERROR_CARD_ECC_FAILED: int := -121
  const ERROR_LOCK_UNLOCK: int := -122
  const ERROR_ERASE_SEQ: int := -123
  const ERROR_BLOCK_LEN: int := -124
  const ERROR_SENT_CMD: int := -125
  const ERROR_SD_BUSY_TIMEOUT: int := -126
  const ERROR_RESPONCE: int := -127
  const ERROR_TXUNDER: int := -128
  const ERROR_DATA_CRC: int := -129
  const ERROR_START_BIT: int := -131
  const ERROR_RXOVERR: int := -132
  const ERROR_WAIT_TIME: int := -133

  /** CmdResp1Error, lines 57-129: the first error bit found decides the code. */
  function R1Status(r: bv32): int {
    if r & 0x0000_0008 != 0 then ERROR_SEQ_AKE
    else if r & 0x0040_0000 != 0 then ERROR_ILLEGAL_CMD
    else if r & 0x4000_0000 != 0 then ERROR_ADDRESS
    else if r & 0x0000_4000 != 0 then ERROR_CARD_ECC
    else if r & 0x0000_8000 != 0 then ERROR_WP_ERASE_SKIP
    else if r & 0x0001_0000 != 0 then ERROR_CSD_OVERWRITE
    else if r & 0x0008_0000 != 0 then ERROR_UNKNOWN
    else if r & 0x0010_0000 != 0 then ERROR_CARD_CONTROLLER
    else if r & 0x0020_0000 != 0 then ERROR_CARD_ECC_FAILED
    else if r & 0x0080_0000 != 0 then ERROR_CRC
    else if r & 0x0100_0000 != 0 then ERROR_LOCK_UNLOCK
    else if r & 0x0400_0000 != 0 then ERROR_WP_VIOLATION
    else if r & 0x0800_0000 != 0 then ERROR_ERASE_PARAM
    else if r & 0x1000_0000 != 0 then ERROR_ERASE_SEQ
    else if r & 0x2000_0000 != 0 then ERROR_BLOCK_LEN
    else if r & 0x8000_0000 != 0 then ERROR_OUT_OF_RANGE
    else if r & 0x0200_0000 != 0 then ERROR_CARD_LOCKED
    else if r & 0x0000_2000 != 0 then ERROR_RESET
    else 0
  }

  /** The chain accepts exactly the responses that carry none of the eighteen error bits
      (section 4.10.1 of the SD Physical Layer Simplified Specification), and every
      rejection is negative: a positive status cannot occur. */
  lemma R1AcceptsIffNoErrorBit(r: bv32)
    ensures R1Status(r) == 0 <==> r & 0xFFF9_E008 == 0
    ensures R1Status(r) <= 0
  {
    var errors := r & 0xFFF9_E008;
    assert r & 0x0000_0008 == errors & 0x0000_0008;
    assert r & 0x0000_2000 == errors & 0x0000_2000;
    assert r & 0x0000_4000 == errors & 0x0000_4000;
    assert r & 0x0000_8000 == errors & 0x0000_8000;
    assert r & 0x0001_0000 == errors & 0x0001_0000;
    assert r & 0x0008_0000 == errors & 0x0008_0000;
    assert r & 0x0010_0000 == errors & 0x0010_0000;
    assert r & 0x0020_0000 == errors & 0x0020_0000;
    assert r & 0x0040_0000 == errors & 0x0040_0000;
    assert r & 0x0080_0000 == errors & 0x0080_0000;
  }

  /** Which code an answer gets whose only error bit is the given one (section 4.10.1 of the SD Physical Layer
      Simplified Specification numbers the bits). */
  lemma R1CodeOfBit(bit: bv32)
    ensures bit & 0xFFF9_E008 == 1 << 31 ==> R1Status(bit) == -112   // OUT_OF_RANGE
    ensures bit & 0xFFF9_E008 == 1 << 30 ==> R1Status(bit) == -102   // ADDRESS_ERROR
    ensures bit & 0xFFF9_E008 == 1 << 29 ==> R1Status(bit) == -124   // BLOCK_LEN_ERROR
    ensures bit & 0xFFF9_E008 == 1 << 28 ==> R1Status(bit) == -123   // ERASE_SEQ_ERROR
    ensures bit & 0xFFF9_E008 == 1 << 27 ==> R1Status(bit) == -106   // ERASE_PARAM
    ensures bit & 0xFFF9_E008 == 1 << 26 ==> R1Status(bit) == -109   // WP_VIOLATION
    ensures bit & 0xFFF9_E008 == 1 << 25 ==> R1Status(bit) == -107   // CARD_IS_LOCKED
    ensures bit & 0xFFF9_E008 == 1 << 24 ==> R1Status(bit) == -122   // LOCK_UNLOCK_FAILED
    ensures bit & 0xFFF9_E008 == 1 << 23 ==> R1Status(bit) == -100   // COM_CRC_ERROR
    ensures bit & 0xFFF9_E008 == 1 << 22 ==> R1Status(bit) == -104   // ILLEGAL_COMMAND
    ensures bit & 0xFFF9_E008 == 1 << 21 ==> R1Status(bit) == -121   // CARD_ECC_FAILED
    ensures bit & 0xFFF9_E008 == 1 << 20 ==> R1Status(bit) == -108   // CC_ERROR
    ensures bit & 0xFFF9_E008 == 1 << 19 ==> R1Status(bit) == -111   // ERROR
    ensures bit & 0xFFF9_E008 == 1 << 16 ==> R1Status(bit) == -120   // CSD_OVERWRITE
    ensures bit & 0xFFF9_E008 == 1 << 15 ==> R1Status(bit) == -113   // WP_ERASE_SKIP
    ensures bit & 0xFFF9_E008 == 1 << 14 ==> R1Status(bit) == -110   // CARD_ECC_DISABLED
    ensures bit & 0xFFF9_E008 == 1 << 13 ==> R1Status(bit) == -114   // ERASE_RESET
    ensures bit & 0xFFF9_E008 == 1 << 3 ==> R1Status(bit) == -118    // AKE_SEQ_ERROR
  {
  }

  /** The code that wait_card_ready treats as a lost answer is given exactly for COM_CRC_ERROR without any of the
      bits tested before it. */
  lemma R1ReportsCrc(r: bv32)
    ensures R1Status(r) == -100 <==> r & 0x0080_0000 != 0 && r & 0x4079_C008 == 0
    ensures R1Status(r) != -133
  {
  }

  function R1Ready(r: bv32): bool { r & 0x0000_0100 != 0 }

  function R1AppCmd(r: bv32): bool { r & 0x0000_0020 != 0 }

  /** CURRENT_STATE, bits 9..12 of R1 and R6. */
  function CurrentState(r: bv32): bv32 { (r >> 9) & 0xF }

  /** CmdResp6Error, lines 265-280. */
  function R6Status(r: bv32): int {
    if r & 0x0000_0008 != 0 then ERROR_SEQ_AKE
    else if r & 0x0000_8000 != 0 then ERROR_CRC
    else if r & 0x0000_2000 != 0 then ERROR_UNKNOWN
    else if r & 0x0000_4000 != 0 then ERROR_ILLEGAL_CMD
    else 0
  }

  /** The status part of R6 (section 4.9.5 of the SD Physical Layer Simplified Specification) is accepted exactly
      when bits 3, 13, 14 and 15 are clear: the other bits, READY_FOR_DATA and the state among them, do not
      matter.  Otherwise the first one set, in the order 3, 15, 13, 14, decides. */
  lemma R6AcceptsIffNoErrorBit(r: bv32)
    ensures R6Status(r) == 0 <==> r & 0x0000_E008 == 0
    ensures R6Status(r) == -118 <==> r / 8 % 2 == 1
    ensures R6Status(r) == -100 <==> r / 8 % 2 == 0 && r / 32768 % 2 == 1
    ensures R6Status(r) == -111 <==> r / 8 % 2 == 0 && r / 32768 % 2 == 0 && r / 8192 % 2 == 1
    ensures R6Status(r) == -104 <==> r & 0x0000_E008 == 0x0000_4000
    ensures R6Status(0x1234_0500) == 0 && RcaField(0x1234_0500) == 0x1234
  {
    Bit3(r);
    Bit13(r);
    Bit15(r);
  }

  lemma Bit3(r: bv32)
    ensures r / 8 % 2 == 1 <==> r & 0x0000_0008 != 0
    ensures r / 8 % 2 == 0 <==> r & 0x0000_0008 == 0
  {
  }

  lemma Bit13(r: bv32)
    ensures r / 8192 % 2 == 1 <==> r & 0x0000_2000 != 0
    ensures r / 8192 % 2 == 0 <==> r & 0x0000_2000 == 0
  {
  }

  lemma Bit15(r: bv32)
    ensures r / 32768 % 2 == 1 <==> r & 0x0000_8000 != 0
    ensures r / 32768 % 2 == 0 <==> r & 0x0000_8000 == 0
  {
  }

  /** READY_FOR_DATA, APP_CMD and CURRENT_STATE by their place in the word (section 4.10.1 of the SD Physical
      Layer Simplified Specification). */
  lemma R1Fields(r: bv32)
    ensures R1Ready(r) <==> r / 256 % 2 == 1
    ensures R1AppCmd(r) <==> r / 32 % 2 == 1
    ensures CurrentState(r) == r / 512 % 16
  {
  }

  /** RCA, bits 16..31 of R6. */
  function RcaField(r: bv32): bv16 { ((r >> 16) & 0xFFFF) as bv16 }

  /** The argument of an addressed command: the RCA in the upper half. */
  function RcaArg(rca: bv16): bv32 { (rca as bv32) << 16 }

  /** An addressed command built from an R6 answer repeats its upper half. */
  lemma RcaArgOfField(r: bv32)
    ensures RcaArg(RcaField(r)) == r & 0xFFFF_0000
  {
  }

  /** The address is the upper half of the answer, and of the argument. */
  lemma RcaPlaces(r: bv32, rca: bv16)
    ensures RcaField(r) as bv32 == r / 65536
    ensures RcaArg(rca) / 65536 == rca as bv32 && RcaArg(rca) % 65536 == 0
  {
  }

  const CHECK_PATTERN: bv32 := 0x0000_01AA

  /** CmdResp7Error, lines 306-310. */
  function R7Status(r: bv32): int {
    if r & CHECK_PATTERN == 0 then ERROR_MASK_VHC else 0
  }

  /** Section 4.3.13 of the SD Physical Layer Simplified Specification: the answer to CMD8 must echo the
      check pattern and the accepted voltage, the low twelve bits of the argument. */
  predicate EchoesPattern(r: bv32) { r & 0x0000_0FFF == CHECK_PATTERN }

  /** The driver accepts any answer that shares one bit with the pattern.  It errs exactly on the
      answers that share some bit and are no echo; 0x00000002 is one. */
  lemma PatternCheckIsLoose(r: bv32)
    ensures EchoesPattern(r) ==> R7Status(r) == 0
    ensures (R7Status(r) == 0) == EchoesPattern(r) <==> (EchoesPattern(r) || r & CHECK_PATTERN == 0)
    ensures R7Status(0x0000_0002) == 0 && !EchoesPattern(0x0000_0002)
  {
  }

  /** CmdResp3Error, lines 198-203: the field named `busy` is bit 30. */
  function R3Busy(r: bv32): bool { r & 0x4000_0000 == 0 }

  /** Section 5.1 of the SD Physical Layer Simplified Specification: bit 31 is the power-up status, bit 30 is CCS. */
  predicate PoweredUp(r: bv32) { r & 0x8000_0000 != 0 }

  /** The voltage window and the bit that decides the card type, as the driver's OCR fields place them. */
  function OcrVoltage(r: bv32): bv32 { (r >> 14) & 0x1FF }

  predicate OcrHighCapacity(r: bv32) { r & 0x2000_0000 != 0 }

  lemma OcrFields(r: bv32)
    ensures OcrVoltage(r) == r / 16384 % 512
    ensures OcrHighCapacity(r) <==> r / 0x2000_0000 % 2 == 1
    ensures R3Busy(r) <==> r / 0x4000_0000 % 2 == 0
  {
  }

  /** The driver's readiness agrees with the card's exactly when the power-up bit equals CCS; a
      standard-capacity card that is ready (0x80FF8000) reads as busy. */
  lemma OcrReadinessAgrees(r: bv32)
    ensures (!R3Busy(r) <==> PoweredUp(r)) <==> ((r >> 31) & 1 == (r >> 30) & 1)
    ensures PoweredUp(0x80FF_8000) && R3Busy(0x80FF_8000)
  {
    assert (r & 0x8000_0000 != 0) <==> ((r >> 31) & 1 == 1);
    assert (r & 0x4000_0000 != 0) <==> ((r >> 30) & 1 == 1);
    assert (r >> 31) & 1 == 0 || (r >> 31) & 1 == 1;
    assert (r >> 30) & 1 == 0 || (r >> 30) & 1 == 1;
  }

  // ---------- CSD ----------

  lemma FourBits(r: bv32)
    ensures (((r & 0x000F_0000) >> 16) as nat) < 16
  {
    assert (r & 0x000F_0000) >> 16 < 16;
  }

  lemma ThreeBits(r: bv32)
    ensures (((r & 0x0003_8000) >> 15) as nat) < 8
  {
    assert (r & 0x0003_8000) >> 15 < 8;
  }

  /** read_csd_data, lines 518-547: the fields that make the capacity.  The first word is RESP[0]. */
  function CsdStructure(r0: bv32): bv32 { r0 >> 30 }

  function ReadBlLen(r1: bv32): (e: nat)
    ensures e < 16
  {
    FourBits(r1);
    ((r1 & 0x000F_0000) >> 16) as nat
  }

  function SizeMult(r0: bv32): (e: nat)
    ensures e < 8
  {
    ThreeBits(r0);
    ((r0 & 0x0003_8000) >> 15) as nat
  }

  function SizeV1(r1: bv32, r2: bv32): nat { (((r1 & 0x0000_03FF) << 2) | ((r2 & 0xC000_0000) >> 30)) as nat }

  function SizeV2(r1: bv32, r2: bv32): nat { (((r1 & 0x0000_003F) << 16) | ((r2 & 0xFFFF_0000) >> 16)) as nat }

  /** The fields by their places in the three words. */
  lemma CsdFields(r0: bv32, r1: bv32, r2: bv32)
    ensures CsdStructure(r0) == r0 / 0x4000_0000
    ensures ReadBlLen(r1) == (r1 / 65536 % 16) as nat
    ensures SizeMult(r0) == (r0 / 32768 % 8) as nat
    ensures SizeV1(r1, r2) == (r1 % 1024 * 4 + r2 / 0x4000_0000) as nat
    ensures SizeV2(r1, r2) == (r1 % 64 * 65536 + r2 / 65536) as nat
  {
    assert r0 >> 30 == r0 / 0x4000_0000;
    assert (r1 & 0x000F_0000) >> 16 == r1 / 65536 % 16;
    assert (r0 & 0x0003_8000) >> 15 == r0 / 32768 % 8;
    assert ((r1 & 0x0000_03FF) << 2) | ((r2 & 0xC000_0000) >> 30) == r1 % 1024 * 4 + r2 / 0x4000_0000;
    assert ((r1 & 0x0000_003F) << 16) | ((r2 & 0xFFFF_0000) >> 16) == r1 % 64 * 65536 + r2 / 65536;
  }
}
