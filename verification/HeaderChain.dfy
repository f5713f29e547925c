/** Block headers and rewards (`header.rs`, `reward.rs`): a closed form for every
    height of every chain built from a genesis header. */
module HeaderChain {
  import opened Options
  import opened Blocks

  const NUMBER_OF_BLOCKS_PER_EPOCH: nat := 30000000
  const BASELINE_REWARD: nat := 20
  const MIN_BASELINE_REWARD: nat := 15
  const MAX_BASELINE_REWARD: nat := 25
  const U32_MAX: nat := 0xFFFF_FFFF
  const U64_MAX: nat := 0xFFFF_FFFF_FFFF_FFFF

  type u64 = x: nat | x <= U64_MAX witness 0
  const I128_MAX: int := 0x7FFF_FFFF_FFFF_FFFF_FFFF_FFFF_FFFF_FFFF
  type i128 = x: int | -I128_MAX - 1 <= x <= I128_MAX witness 0

  // ---- Rewards ------------------------------------------------------------

  datatype Reward = Reward(epoch: nat, nextEpochBlock: nat, currentBlock: nat, miner: Option<Address>, amount: u128)

  const GENESIS_REWARD := Reward(0, NUMBER_OF_BLOCKS_PER_EPOCH, 0, None, BASELINE_REWARD)

  /** Division of a signed integer, which truncates toward zero. */
  function TruncDiv(x: int, n: nat): int
    requires n > 0
  {
    if x >= 0 then x / n else -((-x) / n)
  }

  /** The epoch's share of an adjustment is rounded toward zero. */
  lemma TruncatesTowardZero(x: int)
    ensures var n, q := NUMBER_OF_BLOCKS_PER_EPOCH, TruncDiv(x, NUMBER_OF_BLOCKS_PER_EPOCH);
            && (x >= 0 ==> 0 <= n * q <= x < n * q + n)
            && (x < 0 ==> n * q - n < x <= n * q <= 0)
  {
  }

  /** The cast of a signed 128-bit value to an unsigned one. */
  function AsU128(x: i128): u128 {
    if x < 0 then x + U128 else x
  }

  function NextAmount(amount: u128, adjustment: i128): u128
    requires amount <= MAX_BASELINE_REWARD
  {
    var adjusted := AsU128(amount + TruncDiv(adjustment, NUMBER_OF_BLOCKS_PER_EPOCH));
    if adjusted < MIN_BASELINE_REWARD then MIN_BASELINE_REWARD
    else if adjusted > MAX_BASELINE_REWARD then MAX_BASELINE_REWARD
    else adjusted
  }

  function GenerateNextReward(r: Reward, adjustment: i128): Reward
    requires r.amount <= MAX_BASELINE_REWARD
  {
    if (r.currentBlock + 1) % NUMBER_OF_BLOCKS_PER_EPOCH == 0 then
      Reward(r.epoch + 1, r.nextEpochBlock + NUMBER_OF_BLOCKS_PER_EPOCH, r.currentBlock, None,
             NextAmount(r.amount, adjustment))
    else r
  }

  function Clamp(x: int): int {
    if x < MIN_BASELINE_REWARD then MIN_BASELINE_REWARD
    else if x > MAX_BASELINE_REWARD then MAX_BASELINE_REWARD
    else x
  }

  /** The new reward is the adjusted one clamped to its range exactly when the adjusted
      one is not negative; a negative one is cast to a huge number and becomes the
      maximum instead of the minimum. */
  lemma NextAmountClampsExactly(amount: u128, adjustment: i128)
    requires MIN_BASELINE_REWARD <= amount <= MAX_BASELINE_REWARD
    ensures var adjusted := amount + TruncDiv(adjustment, NUMBER_OF_BLOCKS_PER_EPOCH);
            && (NextAmount(amount, adjustment) == Clamp(adjusted) <==> adjusted >= 0)
            && (adjusted < 0 ==> NextAmount(amount, adjustment) == MAX_BASELINE_REWARD)
  {
  }

  // ---- Headers ------------------------------------------------------------

  /** `generate_u64_in_range` for the range the headers use. */
  function SeedInRange(random: u64): (seed: u64)
    ensures U32_MAX <= seed
  {
    var range := U64_MAX - U32_MAX + 1;
    var num := random % range + U32_MAX;
    num % range + U32_MAX
  }

  datatype Header = Header(
    round: nat, epoch: nat, blockSeed: u64, nextBlockSeed: u64, blockHeight: nat,
    blockReward: Reward, nextBlockReward: Reward)

  /** What is not determined by the last block: the VRF's output, the miner and the adjustment. */
  datatype Input = Input(random: u64, miner: Address, adjustment: i128)

  function Genesis(round: nat, epoch: nat, random: u64, miner: Address): Header {
    Header(round, epoch, 0, SeedInRange(random), 0,
           Reward(1, NUMBER_OF_BLOCKS_PER_EPOCH, 0, Some(miner), BASELINE_REWARD), GENESIS_REWARD)
  }

  function NextHeader(last: Header, input: Input): Header
    requires last.nextBlockReward.amount <= MAX_BASELINE_REWARD
  {
    var height := last.blockHeight + 1;
    var reward := last.nextBlockReward.(currentBlock := height);
    Header(last.round + 1, last.epoch, last.nextBlockSeed, SeedInRange(input.random), height,
           reward.(miner := Some(input.miner)), GenerateNextReward(reward, input.adjustment))
  }

  /** The closed form of the header at height `h` over a genesis header. */
  ghost predicate AtHeight(g: Header, h: nat, x: Header) {
    && x.round == g.round + h && x.epoch == g.epoch && x.blockHeight == h
    && x.nextBlockReward.epoch == (h + 1) / NUMBER_OF_BLOCKS_PER_EPOCH
    && x.nextBlockReward.nextEpochBlock == (x.nextBlockReward.epoch + 1) * NUMBER_OF_BLOCKS_PER_EPOCH
    && MIN_BASELINE_REWARD <= x.nextBlockReward.amount <= MAX_BASELINE_REWARD && x.nextBlockReward.miner == None
    && U32_MAX <= x.nextBlockSeed
  }

  ghost predicate IsGenesis(g: Header) {
    exists random, miner :: g == Genesis(g.round, g.epoch, random, miner)
  }

  ghost predicate Follows(last: Header, next: Header) {
    last.nextBlockReward.amount <= MAX_BASELINE_REWARD && exists input :: next == NextHeader(last, input)
  }

  ghost predicate IsChain(hs: seq<Header>) {
    hs != [] && IsGenesis(hs[0]) && forall h :: 0 < h < |hs| ==> Follows(hs[h - 1], hs[h])
  }

  lemma EpochStep(h: nat)
    ensures (h + 2) / NUMBER_OF_BLOCKS_PER_EPOCH ==
            (h + 1) / NUMBER_OF_BLOCKS_PER_EPOCH + (if (h + 2) % NUMBER_OF_BLOCKS_PER_EPOCH == 0 then 1 else 0)
  {
  }

  lemma NextKeepsForm(g: Header, h: nat, last: Header, next: Header)
    requires AtHeight(g, h, last) && Follows(last, next)
    ensures AtHeight(g, h + 1, next)
  {
    EpochStep(h);
  }

  /** On every chain built from genesis, for any adjustments, miners and VRF outputs,
      every header has the closed form, takes its seed from its predecessor, and pays
      the reward its predecessor announced. */
  lemma {:induction false} ChainClosedForm(hs: seq<Header>, h: nat)
    requires IsChain(hs) && h < |hs|
    ensures AtHeight(hs[0], h, hs[h])
    ensures h > 0 ==> hs[h].blockSeed == hs[h - 1].nextBlockSeed >= U32_MAX
    ensures h > 0 ==> hs[h].blockReward.amount == hs[h - 1].nextBlockReward.amount
                      && hs[h].blockReward.currentBlock == h && hs[h].blockReward.miner.Some?
    decreases h
  {
    if h > 0 {
      ChainClosedForm(hs, h - 1);
      assert Follows(hs[h - 1], hs[h]);
      NextKeepsForm(hs[0], h - 1, hs[h - 1], hs[h]);
    }
  }

  /** The announced reward changes only with the epoch. */
  lemma RewardChangesWithEpoch(hs: seq<Header>, h: nat)
    requires IsChain(hs) && 0 < h < |hs|
    ensures hs[h].nextBlockReward.amount != hs[h - 1].nextBlockReward.amount ==>
            (h + 1) % NUMBER_OF_BLOCKS_PER_EPOCH == 0
            && hs[h].nextBlockReward.epoch == hs[h - 1].nextBlockReward.epoch + 1
  {
    ChainClosedForm(hs, h);
    ChainClosedForm(hs, h - 1);
    assert Follows(hs[h - 1], hs[h]);
  }

  // ---- What the inputs decide ---------------------------------------------

  const RANGE: nat := U64_MAX - U32_MAX + 1

  /** Every seed of the range comes from exactly one random number below the range's size. */
  lemma SeedsAreReached(seed: u64)
    requires U32_MAX <= seed
    ensures exists random: u64 :: random < RANGE && SeedInRange(random) == seed
    ensures forall r: u64, s: u64 | r < RANGE && s < RANGE ::
              SeedInRange(r) == seed && SeedInRange(s) == seed ==> r == s
  {
    var random: u64 := if seed >= 2 * U32_MAX then seed - 2 * U32_MAX else seed + RANGE - 2 * U32_MAX;
    SeedExactly(random);
    forall r: u64, s: u64 | r < RANGE && s < RANGE && SeedInRange(r) == seed && SeedInRange(s) == seed
      ensures r == s
    {
      SeedExactly(r);
      SeedExactly(s);
    }
  }

  lemma SeedExactly(random: u64)
    requires random < RANGE
    ensures SeedInRange(random) ==
            if random + U32_MAX < RANGE then random + 2 * U32_MAX else random + 2 * U32_MAX - RANGE
  {
  }

  /** The chain built from these inputs. */
  ghost predicate IsBuiltFrom(hs: seq<Header>, inputs: seq<Input>) {
    && |hs| == |inputs| + 1 && IsGenesis(hs[0])
    && (forall h :: 0 <= h < |inputs| ==>
          hs[h].nextBlockReward.amount <= MAX_BASELINE_REWARD && hs[h + 1] == NextHeader(hs[h], inputs[h]))
  }

  /** The amount announced after an adjustment at the end of an epoch. */
  function Adjusted(amount: u128, adjustment: i128): int {
    var adjusted := amount + TruncDiv(adjustment, NUMBER_OF_BLOCKS_PER_EPOCH);
    if adjusted < 0 then MAX_BASELINE_REWARD else Clamp(adjusted)
  }

  /** At every height the block's miner is the given one, its next seed is the given random
      number's, and the announced amount is the last one, adjusted as given exactly at the
      last height of an epoch. */
  lemma InputsDecide(hs: seq<Header>, inputs: seq<Input>, h: nat)
    requires IsBuiltFrom(hs, inputs) && 0 < h < |hs|
    ensures IsChain(hs)
    ensures hs[h].blockReward == hs[h - 1].nextBlockReward.(currentBlock := h, miner := Some(inputs[h - 1].miner))
    ensures hs[h].nextBlockSeed == SeedInRange(inputs[h - 1].random)
    ensures var last := hs[h - 1].nextBlockReward.amount;
            hs[h].nextBlockReward.amount ==
            if (h + 1) % NUMBER_OF_BLOCKS_PER_EPOCH == 0 then Adjusted(last, inputs[h - 1].adjustment) else last
    ensures hs[h].nextBlockReward.currentBlock == h
  {
    BuiltIsChain(hs, inputs);
    ChainClosedForm(hs, h - 1);
    assert hs[h - 1 + 1] == NextHeader(hs[h - 1], inputs[h - 1]);
    InputDecides(hs[h - 1], inputs[h - 1]);
  }

  lemma BuiltIsChain(hs: seq<Header>, inputs: seq<Input>)
    requires IsBuiltFrom(hs, inputs)
    ensures IsChain(hs)
  {
    forall k | 0 < k < |hs| ensures Follows(hs[k - 1], hs[k]) {
      assert hs[k - 1 + 1] == NextHeader(hs[k - 1], inputs[k - 1]);
    }
  }

  lemma InputDecides(last: Header, input: Input)
    requires MIN_BASELINE_REWARD <= last.nextBlockReward.amount <= MAX_BASELINE_REWARD
    ensures var next, amount := NextHeader(last, input), last.nextBlockReward.amount;
            && next.nextBlockReward.amount ==
               (if (last.blockHeight + 2) % NUMBER_OF_BLOCKS_PER_EPOCH == 0 then Adjusted(amount, input.adjustment)
                else amount)
            && next.nextBlockReward.currentBlock == last.blockHeight + 1
            && next.blockReward ==
               last.nextBlockReward.(currentBlock := last.blockHeight + 1, miner := Some(input.miner))
  {
    NextAmountClampsExactly(last.nextBlockReward.amount, input.adjustment);
  }

  /** The first header of every chain: height and seed 0, 20 units for its miner in epoch 1,
      and 20 units announced in epoch 0, in which 30000000 is the next epoch's block. */
  lemma GenesisExactly(g: Header)
    requires IsGenesis(g)
    ensures g.blockHeight == 0 && g.blockSeed == 0 && g.blockReward.miner.Some?
    ensures g.blockReward == Reward(1, 30000000, 0, g.blockReward.miner, 20)
    ensures g.nextBlockReward == Reward(0, 30000000, 0, None, 20)
  {
  }

  /** Within the first epoch every block announces and pays 20 units. */
  lemma {:induction false} FirstEpoch(hs: seq<Header>, h: nat)
    requires IsChain(hs) && h < |hs| && h < 29999999
    ensures hs[h].nextBlockReward.amount == 20 && hs[h].blockReward.amount == 20
    decreases h
  {
    if h > 0 {
      FirstEpoch(hs, h - 1);
      RewardChangesWithEpoch(hs, h);
      ChainClosedForm(hs, h);
    } else {
      GenesisExactly(hs[0]);
    }
  }
}
