/**
 LoRa's on-air time in exact arithmetic, and the data-rate choice that minimises it.
 */
module LoraAirtime {
  import opened Basics
  import opened Options

  datatype SpreadingFactor = Sf7 | Sf8 | Sf9 | Sf10 | Sf11 | Sf12

  function Factor(sf: SpreadingFactor): nat {
    match sf
    case Sf7 => 7
    case Sf8 => 8
    case Sf9 => 9
    case Sf10 => 10
    case Sf11 => 11
    case Sf12 => 12
  }

  /** The demodulation floor in decibels. */
  function RequiredSnr(sf: SpreadingFactor): real {
    match sf
    case Sf7 => -7.5
    case Sf8 => -10.0
    case Sf9 => -12.5
    case Sf10 => -15.0
    case Sf11 => -17.5
    case Sf12 => -20.0
  }

  predicate LowDataRate(sf: SpreadingFactor, bandwidth: real) {
    Factor(sf) >= 11 && bandwidth <= 125000.0
  }

  /** Fastest first. */
  function All(): seq<SpreadingFactor> {
    [Sf7, Sf8, Sf9, Sf10, Sf11, Sf12]
  }

  datatype Config = Config(sf: SpreadingFactor, bandwidth: real, codingRate: nat, preamble: nat)

  /** The least integer that is at least the quotient. */
  function CeilDiv(num: int, den: nat): (q: int)
    requires den > 0
    ensures den * (q - 1) < num <= den * q
  {
    -(-num / den)
  }

  /** Four times the bits a coded block carries. */
  function BlockBits(c: Config): (den: nat)
    ensures den > 0
  {
    4 * (Factor(c.sf) - 2 * (if LowDataRate(c.sf, c.bandwidth) then 1 else 0))
  }

  /** How many coded blocks the payload takes, header and checksum included. */
  function Blocks(c: Config, payload: nat): nat {
    var blocks := CeilDiv(8 * payload - 4 * Factor(c.sf) + 28 + 16, BlockBits(c));
    if blocks > 0 then blocks else 0
  }

  /** The symbols those blocks take. */
  function Coded(c: Config, payload: nat): nat {
    Blocks(c, payload) * (c.codingRate + 4)
  }

  /** Seconds on air. */
  function Airtime(c: Config, payload: nat): real
    requires c.bandwidth > 0.0
  {
    var symbol := Pow2(Factor(c.sf)) as real / c.bandwidth;
    var preamble := (c.preamble as real + 4.25) * symbol;
    preamble + (8.0 + Coded(c, payload) as real) * symbol
  }

  // ---- More spreading is more airtime ------------------------------------------------------------

  /** Airtime in quarters of a symbol. */
  function Quarters(c: Config, payload: nat): nat {
    4 * c.preamble + 49 + 4 * Coded(c, payload)
  }

  lemma InQuarters(preamble: real, blocks: real, chips: real, bandwidth: real)
    requires bandwidth > 0.0
    ensures (preamble + 4.25) * (chips / bandwidth) + (8.0 + blocks) * (chips / bandwidth)
         == (4.0 * preamble + 49.0 + 4.0 * blocks) * chips / (4.0 * bandwidth)
  {
    var symbol := chips / bandwidth;
    var quarters := 4.0 * preamble + 49.0 + 4.0 * blocks;
    assert chips == symbol * bandwidth;
    assert (preamble + 4.25) * symbol + (8.0 + blocks) * symbol == quarters / 4.0 * symbol;
    Cancel(quarters, symbol, bandwidth);
  }

  lemma Cancel(quarters: real, symbol: real, bandwidth: real)
    requires bandwidth > 0.0
    ensures quarters / 4.0 * symbol == quarters * (symbol * bandwidth) / (4.0 * bandwidth)
  {
    var x := quarters / 4.0 * symbol;
    assert quarters * (symbol * bandwidth) == x * (4.0 * bandwidth);
  }

  function Scaled(quarters: nat, chips: nat, scale: real): real
    requires scale > 0.0
  {
    quarters as real * chips as real / scale
  }

  lemma AirtimeInQuarters(c: Config, payload: nat)
    requires c.bandwidth > 0.0
    ensures Airtime(c, payload)
         == Scaled(Quarters(c, payload), Pow2(Factor(c.sf)), 4.0 * c.bandwidth)
  {
    hide Blocks, Pow2, Factor;
    InQuarters(c.preamble as real, Coded(c, payload) as real, Pow2(Factor(c.sf)) as real, c.bandwidth);
  }

  predicate Successor(slow: SpreadingFactor, fast: SpreadingFactor) {
    Factor(slow) == Factor(fast) + 1
  }

  /** A step up in spreading less than halves the blocks, even where the low-data-rate mode sets
      in and whatever the rounding. */
  lemma BlocksLessThanHalve(c: Config, slow: SpreadingFactor, payload: nat)
    requires Successor(slow, c.sf)
    ensures Blocks(c, payload) <= 2 * Blocks(c.(sf := slow), payload) + 1
  {
    var n := Blocks(c.(sf := slow), payload);
    var den, den' := BlockBits(c), BlockBits(c.(sf := slow));
    var num := 8 * payload - 4 * Factor(c.sf) + 44;
    EnoughForHalf(num, den, den', n);
    CeilAtMost(num, den, 2 * n + 1);
  }

  /** `n` blocks of at most four bits more hold all but four of what twice as many and one hold. */
  lemma EnoughForHalf(num: int, den: nat, more: nat, n: nat)
    requires num - 4 <= more * n && 4 <= den && more <= den + 4
    ensures num <= den * (2 * n + 1)
  {
    assert more * n <= (den + 4) * n;
    assert 4 * n <= den * n;
  }

  lemma CeilAtMost(num: int, den: nat, q: int)
    requires den > 0 && num <= den * q
    ensures CeilDiv(num, den) <= q
  {
    assert den * (CeilDiv(num, den) - 1) < den * q;
  }

  lemma AsReal(x: nat, y: nat)
    ensures (x * y) as real == x as real * y as real
  {
  }

  lemma CodedLessThanHalves(fast: nat, slow: nat, rate: nat)
    requires fast <= 2 * slow + 1
    ensures fast * rate <= 2 * (slow * rate) + rate
  {
    assert fast * rate <= (2 * slow + 1) * rate;
  }

  lemma QuartersLessThanHalve(c: Config, slow: SpreadingFactor, payload: nat)
    requires Successor(slow, c.sf) && c.codingRate <= 8
    ensures Quarters(c, payload) < 2 * Quarters(c.(sf := slow), payload)
  {
    BlocksLessThanHalve(c, slow, payload);
    hide Blocks;
    CodedLessThanHalves(Blocks(c, payload), Blocks(c.(sf := slow), payload), c.codingRate + 4);
  }

  lemma Longer(fast: nat, slow: nat, chips: nat, twice: nat, scale: real)
    requires fast < 2 * slow && chips > 0 && twice == 2 * chips && scale > 0.0
    ensures Scaled(fast, chips, scale) < Scaled(slow, twice, scale)
  {
    assert fast * chips < 2 * slow * chips;
    AsReal(fast, chips);
    AsReal(slow, twice);
    assert (fast * chips) as real < (slow * twice) as real;
    Divide((fast * chips) as real, (slow * twice) as real, scale);
  }

  lemma Divide(x: real, y: real, scale: real)
    requires x < y && scale > 0.0
    ensures x / scale < y / scale
  {
    var p, q := x / scale, y / scale;
    assert p * scale < q * scale;
  }

  lemma TwiceTheChips(c: Config, slow: SpreadingFactor)
    requires Successor(slow, c.sf)
    ensures Pow2(Factor(slow)) == 2 * Pow2(Factor(c.sf))
  {
  }

  lemma StepIsLonger(c: Config, slow: SpreadingFactor, payload: nat)
    requires c.bandwidth > 0.0 && c.codingRate <= 8 && Successor(slow, c.sf)
    ensures Airtime(c, payload) < Airtime(c.(sf := slow), payload)
  {
    AirtimeInQuarters(c, payload);
    AirtimeInQuarters(c.(sf := slow), payload);
    QuartersLessThanHalve(c, slow, payload);
    TwiceTheChips(c, slow);
    hide Airtime, Quarters, Blocks, Pow2, Factor, Successor, Scaled;
    Longer(Quarters(c, payload), Quarters(c.(sf := slow), payload), Pow2(Factor(c.sf)), Pow2(Factor(slow)),
           4.0 * c.bandwidth);
  }

  function Next(sf: SpreadingFactor): (slow: SpreadingFactor)
    requires sf != Sf12
    ensures Successor(slow, sf)
  {
    match sf
    case Sf7 => Sf8
    case Sf8 => Sf9
    case Sf9 => Sf10
    case Sf10 => Sf11
    case Sf11 => Sf12
  }

  /** The airtime is strictly increasing in the spreading factor, for every payload, preamble and
      bandwidth and every coding rate up to 8 (LoRa has 1 to 4). */
  lemma {:induction false} MoreSpreadingIsLonger(c: Config, slow: SpreadingFactor, payload: nat)
    requires c.bandwidth > 0.0 && c.codingRate <= 8 && Factor(c.sf) < Factor(slow)
    ensures Airtime(c, payload) < Airtime(c.(sf := slow), payload)
    decreases Factor(slow) - Factor(c.sf)
  {
    var next := Next(c.sf);
    StepIsLonger(c, next, payload);
    if next != slow {
      MoreSpreadingIsLonger(c.(sf := next), slow, payload);
      assert c.(sf := next).(sf := slow) == c.(sf := slow);
    }
  }

  // ---- What the formula counts --------------------------------------------------------------------

  /** The bits a coded block carries for one payload byte in eight: a symbol of each of four, two bits
      fewer in each where the low-data-rate mode is on. */
  function BitsPerBlock(c: Config): nat {
    if Factor(c.sf) >= 11 && c.bandwidth <= 125000.0 then 4 * Factor(c.sf) - 8 else 4 * Factor(c.sf)
  }

  /** The bits to carry: the payload, and 44 of header and checksum less four for each step of
      spreading. */
  function BitsToCarry(c: Config, payload: nat): int {
    8 * payload + 44 - 4 * Factor(c.sf)
  }

  /** `n` blocks are enough exactly when their bits hold what there is to carry. */
  lemma BlocksAreFewest(c: Config, payload: nat, n: nat)
    ensures Blocks(c, payload) <= n <==> BitsToCarry(c, payload) <= n * BitsPerBlock(c)
  {
    var num, den := BitsToCarry(c, payload), BitsPerBlock(c);
    assert den == BlockBits(c);
    var q := CeilDiv(num, den);
    assert num == 8 * payload - 4 * Factor(c.sf) + 28 + 16;
    hide CeilDiv, Factor, LowDataRate;
    if q <= n {
      assert den * q <= den * n;
    } else {
      assert den * (q - 1) >= den * n;
    }
  }

  /** The symbols on air: the preamble and its four and a quarter of synchronisation, eight more, and
      for each block four and as many as the coding rate adds. */
  lemma SymbolsOnAir(c: Config, payload: nat)
    requires c.bandwidth > 0.0
    ensures Airtime(c, payload) * c.bandwidth
         == (c.preamble as real + 12.25 + (Blocks(c, payload) * (c.codingRate + 4)) as real)
            * Pow2(Factor(c.sf)) as real
  {
    hide Blocks, Pow2, Factor;
    var chips, bandwidth, coded := Pow2(Factor(c.sf)) as real, c.bandwidth, Coded(c, payload) as real;
    var symbol := chips / bandwidth;
    assert symbol * bandwidth == chips;
    var symbols := c.preamble as real + 12.25 + coded;
    assert Airtime(c, payload) == symbols * symbol;
    Regroup(symbols, symbol, bandwidth);
  }

  lemma Regroup(x: real, y: real, z: real)
    ensures (x * y) * z == x * (y * z)
  {
  }

  lemma MoreSymbols(fewer: nat, more: nat, chips: nat, scale: real)
    requires chips > 0 && scale > 0.0 && fewer <= more
    ensures Scaled(fewer, chips, scale) <= Scaled(more, chips, scale)
    ensures fewer < more ==> Scaled(fewer, chips, scale) < Scaled(more, chips, scale)
  {
    AsReal(fewer, chips);
    AsReal(more, chips);
    if fewer < more {
      assert fewer * chips < more * chips;
      Divide((fewer * chips) as real, (more * chips) as real, scale);
    }
  }

  lemma {:induction false} BlocksGrow(c: Config, short: nat, long: nat)
    requires short <= long
    ensures Blocks(c, short) <= Blocks(c, long)
    ensures 8 * (long - short) >= BitsPerBlock(c) ==> Blocks(c, short) < Blocks(c, long)
  {
    var n, den := Blocks(c, long), BitsPerBlock(c);
    BlocksAreFewest(c, long, n);
    BlocksAreFewest(c, short, n);
    if 8 * (long - short) >= den {
      assert BitsToCarry(c, long) + 4 >= den;
      BlocksAreFewest(c, long, 0);
      BlocksAreFewest(c, short, n - 1);
      assert (n - 1) * den == n * den - den;
    }
  }

  lemma CodedGrow(fewer: nat, more: nat, rate: nat)
    requires fewer <= more && rate > 0
    ensures fewer * rate <= more * rate
    ensures fewer < more ==> fewer * rate < more * rate
  {
    MulLeq(rate, fewer, more);
    if fewer < more {
      MulLeq(rate, fewer + 1, more);
      MulStep(fewer, rate);
    }
  }

  /** Airtime never falls as the payload grows, and rises when it grows by a block's bits. */
  lemma MorePayloadIsLonger(c: Config, short: nat, long: nat)
    requires c.bandwidth > 0.0 && short <= long
    ensures Airtime(c, short) <= Airtime(c, long)
    ensures 8 * (long - short) >= BitsPerBlock(c) ==> Airtime(c, short) < Airtime(c, long)
  {
    AirtimeInQuarters(c, short);
    AirtimeInQuarters(c, long);
    BlocksGrow(c, short, long);
    hide Airtime, Blocks, Pow2, Factor, Scaled, BitsPerBlock;
    CodedGrow(Blocks(c, short), Blocks(c, long), c.codingRate + 4);
    MoreSymbols(Quarters(c, short), Quarters(c, long), Pow2(Factor(c.sf)), 4.0 * c.bandwidth);
  }

  lemma RateGrows(blocks: nat, less: nat, more: nat)
    requires less < more
    ensures blocks * less <= blocks * more
    ensures blocks * less < blocks * more <==> blocks > 0
  {
    assert blocks * more == blocks * less + blocks * (more - less);
    if blocks > 0 { assert blocks * (more - less) >= 1; }
  }

  /** More coding is longer, wherever there are blocks to code. */
  lemma MoreCodingIsLonger(c: Config, more: nat, payload: nat)
    requires c.bandwidth > 0.0 && c.codingRate < more
    ensures Airtime(c, payload) <= Airtime(c.(codingRate := more), payload)
    ensures Airtime(c, payload) < Airtime(c.(codingRate := more), payload) <==> Blocks(c, payload) > 0
  {
    var d := c.(codingRate := more);
    AirtimeInQuarters(c, payload);
    AirtimeInQuarters(d, payload);
    assert Blocks(d, payload) == Blocks(c, payload);
    hide Airtime, Blocks, Pow2, Factor, Scaled;
    RateGrows(Blocks(c, payload), c.codingRate + 4, more + 4);
    MoreSymbols(Quarters(c, payload), Quarters(d, payload), Pow2(Factor(c.sf)), 4.0 * c.bandwidth);
  }

  // ---- Adaptive data rate -----------------------------------------------------------------------

  predicate Meets(sf: SpreadingFactor, snr: real, margin: real) {
    snr >= RequiredSnr(sf) + margin
  }

  /** Each step of spreading gains two and a half decibels. */
  lemma MeetsExactlyWhen(sf: SpreadingFactor, snr: real, margin: real)
    ensures Meets(sf, snr, margin) <==> snr - margin >= -7.5 - 2.5 * (Factor(sf) - 7) as real
  {
  }

  function FirstThatMeets(list: seq<SpreadingFactor>, snr: real, margin: real): Option<SpreadingFactor> {
    if list == [] then None
    else if Meets(list[0], snr, margin) then Some(list[0])
    else FirstThatMeets(list[1..], snr, margin)
  }

  function AdrSelect(snr: real, margin: real): Option<SpreadingFactor> {
    FirstThatMeets(All(), snr, margin)
  }

  lemma {:induction false} FirstIsFirst(list: seq<SpreadingFactor>, snr: real, margin: real) returns (i: nat)
    ensures i <= |list| && forall j | 0 <= j < i :: !Meets(list[j], snr, margin)
    ensures i < |list| ==> Meets(list[i], snr, margin)
    ensures FirstThatMeets(list, snr, margin) == if i < |list| then Some(list[i]) else None
    decreases |list|
  {
    if list == [] || Meets(list[0], snr, margin) {
      i := 0;
    } else {
      i := FirstIsFirst(list[1..], snr, margin);
      i := i + 1;
    }
  }

  lemma EveryFactorIsListed(sf: SpreadingFactor)
    ensures All()[Factor(sf) - 7] == sf
  {
  }

  /** The choice is the factor with the least airtime among all that meet the margin, and there is
      none exactly when the most robust factor does not meet it. */
  lemma AdrMinimisesAirtime(c: Config, payload: nat, snr: real, margin: real)
    requires c.bandwidth > 0.0 && c.codingRate <= 8
    ensures AdrSelect(snr, margin).None? <==> !Meets(Sf12, snr, margin)
    ensures AdrSelect(snr, margin).Some? ==>
              var best := AdrSelect(snr, margin).value;
              Meets(best, snr, margin) && forall sf | Meets(sf, snr, margin) ::
                sf == best || Airtime(c.(sf := best), payload) < Airtime(c.(sf := sf), payload)
  {
    var i := FirstIsFirst(All(), snr, margin);
    assert All()[5] == Sf12;
    if AdrSelect(snr, margin).Some? {
      var best := AdrSelect(snr, margin).value;
      forall sf | Meets(sf, snr, margin) && sf != best
        ensures Airtime(c.(sf := best), payload) < Airtime(c.(sf := sf), payload)
      {
        EveryFactorIsListed(sf);
        EveryFactorIsListed(best);
        assert c.(sf := best).(sf := sf) == c.(sf := sf);
        MoreSpreadingIsLonger(c.(sf := best), sf, payload);
      }
    }
  }
}
