/** The PLL of drivers/core/rcc.c and rcc.h: the PLLCFGR fields, configure_pll_rcc, switch_to_pll_rcc,
    get_clock_frequencies (SYSCLK) and get_pll48clk_freq. */
module RccPll {
  import opened Common

  const RCC_HSI_FREQ: nat := 16000000
  const RCC_HSE_FREQ: nat := 25000000

  const RCC_HSI: bv32 := 0
  const RCC_HSE: bv32 := 1
  const RCC_PLL: bv32 := 2

  const CR_PLLRDY: bv32 := 0x0200_0000
  const CR_PLLON: bv32 := 0x0100_0000
  const CR_HSERDY: bv32 := 0x0002_0000
  const CR_HSEON: bv32 := 0x0001_0000
  const CR_HSIRDY: bv32 := 0x0000_0002
  const CR_HSION: bv32 := 0x0000_0001
  const CFGR_SWS: bv32 := 0x0000_000C
  const CFGR_SW: bv32 := 0x0000_0003

  /** All five fields of PLLCFGR. */
  const PLLCFGR_FIELDS: bv32 := 0x0F43_7FFF

  datatype PllConfig = PllConfig(m: bv32, n: bv32, p: bv32, q: bv32, source: bv32) {
    predicate InRange() { m <= 0x3F && n <= 0x1FF && p <= 0x3 && q <= 0xF && source <= 1 }
  }

  function FieldM(r: bv32): bv32 { r & 0x3F }

  function FieldN(r: bv32): bv32 { (r & 0x7FC0) >> 6 }

  function FieldP(r: bv32): bv32 { (r & 0x3_0000) >> 16 }

  function FieldQ(r: bv32): bv32 { (r & 0x0F00_0000) >> 24 }

  function FieldSource(r: bv32): bv32 { (r & 0x0040_0000) >> 22 }

  function Fields(r: bv32): PllConfig {
    PllConfig(FieldM(r), FieldN(r), FieldP(r), FieldQ(r), FieldSource(r))
  }

  /** The fields by their places in the register (section 7.3.2 of RM0090). */
  lemma FieldsArePlaced(r: bv32)
    ensures Fields(r) == PllConfig(r % 64, r / 64 % 512, r / 65536 % 4, r / 0x100_0000 % 16, r / 0x40_0000 % 2)
  {
    assert FieldM(r) == r % 64 && FieldN(r) == r / 64 % 512;
    assert FieldP(r) == r / 65536 % 4 && FieldQ(r) == r / 0x100_0000 % 16;
    assert FieldSource(r) == r / 0x40_0000 % 2;
  }

  /** The register configure_pll_rcc leaves: clear four fields, or the values in unmasked, then the source. */
  function Configured(r: bv32, c: PllConfig): bv32 {
    (((r & !0x0F03_7FFF) | c.m | (c.q << 24) | (c.n << 6) | (c.p << 16)) & !0x0040_0000) | (c.source << 22)
  }

  /** Every field reads back what was configured, whatever the register held, iff every value fits its field. */
  lemma FieldsRoundTrip(r: bv32, c: PllConfig)
    ensures Fields(Configured(r, c)) == c <==> c.InRange()
  {
    FieldsBounded(Configured(r, c));
    if c.InRange() {
      InRangeFields(r, c.m, c.n, c.p, c.q, c.source);
    }
  }

  lemma FieldsBounded(r: bv32)
    ensures Fields(r).InRange()
  {
  }

  lemma InRangeFields(r: bv32, m: bv32, n: bv32, p: bv32, q: bv32, source: bv32)
    requires m <= 0x3F && n <= 0x1FF && p <= 0x3 && q <= 0xF && source <= 1
    ensures
      var w := (((r & !0x0F03_7FFF) | m | (q << 24) | (n << 6) | (p << 16)) & !0x0040_0000) | (source << 22);
      FieldM(w) == m && FieldN(w) == n && FieldP(w) == p && FieldQ(w) == q && FieldSource(w) == source
      && w & !PLLCFGR_FIELDS == r & !PLLCFGR_FIELDS
  {
  }

  /** Bits outside the fields keep their value. */
  lemma OtherBitsKept(r: bv32, c: PllConfig)
    requires c.InRange()
    ensures Configured(r, c) & !0x0F43_7FFF == r & !0x0F43_7FFF
  {
    InRangeFields(r, c.m, c.n, c.p, c.q, c.source);
  }

  /** decode_pllp: the code is cut to a byte. */
  function DecodeP(code: bv32): (d: nat)
    ensures d >= 2
  {
    (((code & 0xFF) as nat) + 1) * 2
  }

  function InputFreq(hse: bool): nat { if hse then RCC_HSE_FREQ else RCC_HSI_FREQ }

  /** (input / m) * n / div, the product in 32 bits. */
  function Output(hse: bool, m: nat, n: nat, div: nat): nat
    requires m > 0 && div > 0
  {
    Sysclk(InputFreq(hse), m, n, div)
  }

  function Sysclk(input: nat, m: nat, n: nat, div: nat): nat
    requires m > 0 && div > 0
  {
    input / m * n % UINT32 / div
  }

  /** target_sysclk of switch_to_pll_rcc */
  function TargetSysclk(c: PllConfig): nat
    requires (c.m as nat) > 0
  {
    Output(c.source == RCC_HSE, c.m as nat, c.n as nat, DecodeP(c.p))
  }

  /** The PLL output get_clock_frequencies computes from the register. */
  function PllSysclk(r: bv32): nat
    requires (FieldM(r) as nat) > 0
  {
    Output(FieldSource(r) != RCC_HSI, FieldM(r) as nat, FieldN(r) as nat, DecodeP(FieldP(r)))
  }

  /** get_pll48clk_freq */
  function Pll48Clk(r: bv32): nat {
    if (FieldM(r) as nat) == 0 || (FieldQ(r) as nat) == 0 then 0
    else Output(FieldSource(r) != 0, FieldM(r) as nat, FieldN(r) as nat, FieldQ(r) as nat)
  }

  /** What was asked for is what is reported, including under 32-bit wrap of the product. */
  lemma ReportedIsTarget(r: bv32, c: PllConfig)
    requires c.InRange() && (c.m as nat) > 0
    ensures FieldM(Configured(r, c)) == c.m && PllSysclk(Configured(r, c)) == TargetSysclk(c)
    ensures Pll48Clk(Configured(r, c)) == if (c.q as nat) == 0 then 0
      else Output(c.source == RCC_HSE, c.m as nat, c.n as nat, c.q as nat)
  {
    FieldsRoundTrip(r, c);
    assert c.source == 0 || c.source == 1;
    assert Fields(Configured(r, c)).m == c.m;
  }

  /** x / d without the quotient. */
  ghost predicate IsQuotient(q: nat, x: nat, d: nat) { q * d <= x < (q + 1) * d }

  lemma QuotientIs(x: nat, d: nat)
    requires d > 0
    ensures IsQuotient(x / d, x, d)
  {
    var q := x / d;
    assert x == d * q + x % d;
    assert d * q == q * d && (q + 1) * d == q * d + d;
  }

  lemma DividerOfCode(p: bv32)
    requires p <= 3
    ensures DecodeP(p) == 2 * ((p as nat) + 1)
  {
    assert p & 0xFF == p;
  }

  /** What the clocks are (section 7.3.2 of RM0090): the input, 25 MHz or 16 MHz by the source bit, divided by M
      and multiplied by N, is the VCO rate, in 32 bits; SYSCLK is it divided by 2, 4, 6 or 8 and PLL48CLK it
      divided by Q. */
  lemma PllFormula(c: PllConfig, vco: nat)
    requires c.InRange() && (c.m as nat) > 0
    requires vco == (if c.source == 1 then 25000000 else 16000000) / (c.m as nat) * (c.n as nat) % 0x1_0000_0000
    ensures IsQuotient(TargetSysclk(c), vco, 2 * ((c.p as nat) + 1))
    ensures (c.q as nat) > 0 ==>
              IsQuotient(Output(c.source == RCC_HSE, c.m as nat, c.n as nat, c.q as nat), vco, c.q as nat)
  {
    DividerOfCode(c.p);
    QuotientIs(vco, DecodeP(c.p));
    if (c.q as nat) > 0 {
      QuotientIs(vco, c.q as nat);
    }
  }

  /** And what is reported of a register is what its fields say. */
  lemma ReportedFormula(r: bv32, vco: nat)
    requires (FieldM(r) as nat) > 0
    requires vco == (if FieldSource(r) == 1 then 25000000 else 16000000) / (FieldM(r) as nat) * (FieldN(r) as nat)
                    % 0x1_0000_0000
    ensures IsQuotient(PllSysclk(r), vco, 2 * ((FieldP(r) as nat) + 1))
    ensures if (FieldQ(r) as nat) == 0 then Pll48Clk(r) == 0 else IsQuotient(Pll48Clk(r), vco, FieldQ(r) as nat)
  {
    FieldsBounded(r);
    PllFormula(Fields(r), vco);
    assert FieldSource(r) == 0 || FieldSource(r) == 1;
  }

  /** The configuration of main.c, lines 67-70: 168 MHz and 48 MHz. */
  lemma MainConfiguration()
    ensures TargetSysclk(PllConfig(25, 336, 0, 7, 1)) == 168000000
    ensures Output(true, 25, 336, 7) == 48000000
  {
    assert (25 as bv32) as nat == 25 && (336 as bv32) as nat == 336;
    assert DecodeP(0) == 2;
  }

  /** The product does wrap in range: 25 MHz / 2 * 511 is past 2^32. */
  lemma WrapIsReachable()
    ensures PllConfig(2, 511, 0, 4, 1).InRange()
    ensures TargetSysclk(PllConfig(2, 511, 0, 4, 1)) != RCC_HSE_FREQ / 2 * 511 / 2
  {
    assert DecodeP(0) == 2;
    assert (2 as bv32) as nat == 2 && (511 as bv32) as nat == 511;
  }

  /** The clock source get_clock_frequencies reads back. */
  function SystemSource(cfgr: bv32): bv32 { (cfgr & CFGR_SWS) >> 2 }

  /** select_sys_clock compares the unshifted bits; SWS are bits 2 and 3 (section 7.3.3 of RM0090). */
  lemma SwsIsSource(cfgr: bv32)
    ensures SystemSource(cfgr) == cfgr / 4 % 4
    ensures cfgr & CFGR_SWS == RCC_PLL << 2 <==> SystemSource(cfgr) == RCC_PLL
  {
  }

  class Rcc {
    var cr: bv32
    var pllcfgr: bv32
    var cfgr: bv32

    /** SYSCLK comes from the PLL. */
    predicate RunsOnPll()
      reads this
    {
      SystemSource(cfgr) == RCC_PLL
    }

    /** The oscillator that feeds the PLL is switched on. */
    predicate OscillatorOn(source: bv32)
      reads `cr
    {
      if source == RCC_HSE then cr & CR_HSEON != 0 else cr & CR_HSION != 0
    }

    /** configure_pll_rcc */
    method ConfigurePll(c: PllConfig) returns (status: int)
      modifies `pllcfgr
      ensures status == if cr & CR_PLLON != 0 then -2 else if c.source != RCC_HSE && c.source != RCC_HSI then -3 else 0
      ensures pllcfgr == if status == 0 then Configured(old(pllcfgr), c) else old(pllcfgr)
      ensures status == 0 ==> (Fields(pllcfgr) == c <==> c.InRange())
      ensures status == 0 && c.InRange() ==> pllcfgr & !PLLCFGR_FIELDS == old(pllcfgr) & !PLLCFGR_FIELDS
    {
      if cr & CR_PLLON != 0 {
        return -2;
      }
      if c.source != RCC_HSE && c.source != RCC_HSI {
        return -3;
      }
      FieldsRoundTrip(pllcfgr, c);
      if c.InRange() {
        OtherBitsKept(pllcfgr, c);
      }
      pllcfgr := Configured(pllcfgr, c);
      status := 0;
    }

    /** SYSCLK as get_clock_frequencies reports it: on the PLL, the target switch_to_pll_rcc computes for the
        configuration that stands in the register.  Source code 3 leaves it unset. */
    method GetSysclk(unset: nat) returns (freq: nat)
      requires RunsOnPll() ==> (FieldM(pllcfgr) as nat) > 0
      ensures RunsOnPll() ==> freq == PllSysclk(pllcfgr) == TargetSysclk(Fields(pllcfgr))
      ensures SystemSource(cfgr) == RCC_HSI ==> freq == RCC_HSI_FREQ
      ensures SystemSource(cfgr) == RCC_HSE ==> freq == RCC_HSE_FREQ
    {
      FieldsBounded(pllcfgr);
      var source := SystemSource(cfgr);
      freq := unset;
      if source == RCC_HSI {
        freq := RCC_HSI_FREQ;
      } else if source == RCC_HSE {
        freq := RCC_HSE_FREQ;
      } else if source == RCC_PLL {
        var input := if FieldSource(pllcfgr) == RCC_HSI then RCC_HSI_FREQ else RCC_HSE_FREQ;
        freq := Sysclk(input, FieldM(pllcfgr) as nat, FieldN(pllcfgr) as nat, DecodeP(FieldP(pllcfgr)));
      }
    }

    /** wait_for_flags on CR: the oscillator reports ready, or the wait gives up. */
    method WaitReady(flag: bv32) returns (status: int)
      modifies `cr
      ensures status == 0 || status == -1
      ensures cr == if status == 0 then old(cr) | flag else old(cr)
    {
      var ready: bool := *;
      status := -1;
      if ready {
        cr := cr | flag;
        status := 0;
      }
    }

    /** The hardware updates SWS. */
    method PollSws()
      modifies `cfgr
      ensures cfgr & !CFGR_SWS == old(cfgr) & !CFGR_SWS
    {
      var sws: bv32 := *;
      cfgr := (cfgr & !CFGR_SWS) | (sws & CFGR_SWS);
    }

    /** select_sys_clock(RCC_PLL) */
    method SelectPll() returns (status: int)
      modifies `cfgr
      ensures status == 0 || status == -3 || status == -5
      ensures status == 0 ==> RunsOnPll() && cfgr & CFGR_SW == RCC_PLL
      ensures status == -3 <==> cr & CR_PLLRDY == 0
      ensures status == -5 ==> !RunsOnPll() && cfgr & CFGR_SW == RCC_PLL
    {
      if cr & CR_PLLRDY == 0 {
        return -3;
      }
      cfgr := cfgr & !CFGR_SW;
      cfgr := cfgr | RCC_PLL;
      ghost var selected := cfgr;
      PollSws();
      SwKept(selected, cfgr);
      SwsIsSource(cfgr);
      status := if cfgr & CFGR_SWS == RCC_PLL << 2 then 0 else -5;
    }

    lemma SwKept(a: bv32, b: bv32)
      requires b & !CFGR_SWS == a & !CFGR_SWS
      ensures b & CFGR_SW == a & CFGR_SW
    {
    }

    method StartOscillator(source: bv32) returns (status: int)
      modifies `cr
      ensures status == 0 || status == if source == RCC_HSE then -2 else -3
      ensures cr & CR_PLLON == old(cr) & CR_PLLON
      ensures status == 0 ==> OscillatorOn(source)
      ensures status == 0 && !old(OscillatorOn(source)) ==>
                cr & (if source == RCC_HSE then CR_HSERDY else CR_HSIRDY) != 0
    {
      status := 0;
      if source == RCC_HSE {
        if cr & CR_HSEON == 0 {
          cr := cr | CR_HSEON;
          status := WaitReady(CR_HSERDY);
          status := if status != 0 then -2 else 0;
        }
      } else {
        if cr & CR_HSION == 0 {
          cr := cr | CR_HSION;
          status := WaitReady(CR_HSIRDY);
          status := if status != 0 then -3 else 0;
        }
      }
    }

    /** The PLL is switched off, or the wait for it to stop gives up. */
    method StopPll() returns (status: int)
      modifies `cr
      ensures status == 0 || status == -4
      ensures status == 0 ==> cr & CR_PLLON == 0
      ensures cr & CR_HSEON == old(cr) & CR_HSEON && cr & CR_HSION == old(cr) & CR_HSION
    {
      status := 0;
      if cr & CR_PLLON != 0 {
        cr := cr & !CR_PLLON;
        var stopped: bool := *;
        if stopped {
          cr := cr & !CR_PLLRDY;
        } else {
          status := -4;
        }
      }
    }

    /** The configured PLL is switched on and made the system clock. */
    method EngagePll() returns (status: int)
      modifies `cr, `cfgr
      ensures status == 0 || -8 <= status <= -6
      ensures status == 0 ==> cr & CR_PLLRDY != 0
      ensures status == -7 || status == -8 ==> cr & CR_PLLRDY != 0
      ensures status == 0 ==> RunsOnPll() && cr & CR_PLLON != 0
      ensures cr & CR_HSEON == old(cr) & CR_HSEON && cr & CR_HSION == old(cr) & CR_HSION
    {
      cr := cr | CR_PLLON;
      status := WaitReady(CR_PLLRDY);
      if status != 0 {
        return -6;
      }
      status := SelectPll();
      if status != 0 {
        return -7;
      }
      PollSws();
      status := if RunsOnPll() then 0 else -8;
    }

    /** switch_to_pll_rcc, without the flash latency.  On success the clock that will be reported is
        the target, for every configuration whose values fit their fields; down to status -5 the PLL register
        is untouched. */
    method SwitchToPll(c: PllConfig) returns (status: int, ghost target: nat)
      requires (c.m as nat) > 0
      modifies this
      ensures target == TargetSysclk(c)
      ensures -8 <= status <= 0
      ensures status == 0 ==> RunsOnPll() && cr & CR_PLLON != 0
      ensures status == 0 ==> pllcfgr == Configured(old(pllcfgr), c)
      ensures status == 0 && c.InRange() ==> (FieldM(pllcfgr) as nat) > 0 && PllSysclk(pllcfgr) == target
      ensures -5 <= status < 0 ==> pllcfgr == old(pllcfgr)
      ensures status == 0 ==> OscillatorOn(c.source)
      ensures status == -2 ==> c.source == RCC_HSE
      ensures status == -3 ==> c.source != RCC_HSE
      ensures status == -5 ==> c.source != RCC_HSE && c.source != RCC_HSI
    {
      target := TargetSysclk(c);
      status := StartOscillator(c.source);
      if status != 0 {
        return;
      }
      status := StopPll();
      if status != 0 {
        return;
      }
      status := ConfigurePll(c);
      if status != 0 {
        status := -5;
        return;
      }
      status := EngagePll();
      if status == 0 && c.InRange() {
        ReportedIsTarget(old(pllcfgr), c);
      }
    }
  }

  // ---------- the AHB prescaler ----------

  function ShiftRight(x: nat, n: nat): nat { if n == 0 then x else ShiftRight(x, n - 1) / 2 }

  /** HCLK as get_clock_frequencies reports it for an HPRE code. */
  function ReportedHclk(sysclk: nat, hpre: nat): nat { ShiftRight(sysclk, if hpre > 7 then hpre - 7 else 0) }

  /** The divider the code stands for (section 7.3.3 of RM0090; RCC_AHB_Presc of rcc.h): there is no 32. */
  function AhbDivider(hpre: nat): (d: nat)
    ensures d > 0
  {
    match hpre
    case 8 => 2
    case 9 => 4
    case 10 => 8
    case 11 => 16
    case 12 => 64
    case 13 => 128
    case 14 => 256
    case 15 => 512
    case _ => 1
  }

  lemma Shifted(x: nat)
    ensures ShiftRight(x, 1) == x / 2 && ShiftRight(x, 2) == x / 4
    ensures ShiftRight(x, 3) == x / 8 && ShiftRight(x, 4) == x / 16
  {
    assert ShiftRight(x, 1) == ShiftRight(x, 0) / 2;
    assert ShiftRight(x, 2) == ShiftRight(x, 1) / 2;
    assert ShiftRight(x, 3) == ShiftRight(x, 2) / 2;
  }

  lemma ShiftedFar(x: nat)
    ensures ShiftRight(x, 5) == x / 32 && ShiftRight(x, 6) == x / 64
    ensures ShiftRight(x, 7) == x / 128 && ShiftRight(x, 8) == x / 256
  {
    Shifted(x);
    assert ShiftRight(x, 5) == ShiftRight(x, 4) / 2;
    assert ShiftRight(x, 6) == ShiftRight(x, 5) / 2;
    assert ShiftRight(x, 7) == ShiftRight(x, 6) / 2;
  }

  /** HCLK is reported right iff the code stands for at most DIV16, or SYSCLK is too slow for the error to
      show.  From DIV64 on what is reported is HCLK doubled, or one more. */
  lemma HclkIsRightUpTo16(sysclk: nat, hpre: nat)
    requires hpre < 16
    ensures ReportedHclk(sysclk, hpre) == sysclk / AhbDivider(hpre) <==> hpre < 12 || 2 * sysclk < AhbDivider(hpre)
    ensures hpre >= 12 ==>
              var hclk := sysclk / AhbDivider(hpre);
              2 * hclk <= ReportedHclk(sysclk, hpre) <= 2 * hclk + 1
  {
    Shifted(sysclk);
    ShiftedFar(sysclk);
  }
}
