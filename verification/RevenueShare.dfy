/**
 * Splitting a claimed fee between the operator and the platform, and the transfers
 * that carry out the split. Fees are whole atomic amounts; rates are exact reals.
 */
module RevenueShare {
  import opened Prelude

  datatype Terms = Terms(
    platformFeeRate: Option<real>, shareEnabled: bool, operatorPct: real,
    feeWallet: string, operatorWallet: string)

  datatype Share = Share(
    platformX: int, platformY: int, operatorX: int, operatorY: int, netX: int, netY: int,
    transferX: int, transferY: int, isCircular: bool)

  datatype Instruction = CreateAccount(mint: string) | Transfer(mint: string, amount: int)

  datatype Settled = Settled(
    instructions: seq<Instruction>,
    platformX: int, platformY: int, operatorX: int, operatorY: int)

  const NOTHING_SETTLED := Settled([], 0, 0, 0, 0)

  /** The rate takes a fee at all. */
  predicate Applies(t: Terms) {
    t.platformFeeRate.Some? && 0.0 < t.platformFeeRate.value <= 1.0
  }

  function OperatorFraction(t: Terms): (r: real)
    ensures 0.0 <= r <= 1.0
    ensures 0.0 <= t.operatorPct <= 100.0 ==> r * 100.0 == t.operatorPct
  {
    var capped := if t.operatorPct < 100.0 then t.operatorPct else 100.0;
    (if capped < 0.0 then 0.0 else capped) / 100.0
  }

  /** n is r rounded down. */
  predicate IsFloor(n: int, r: real) {
    n as real <= r < n as real + 1.0
  }

  function PartOf(amount: int, fraction: real): int {
    (amount as real * fraction).Floor
  }

  /** One leg of a share agrees with the terms. */
  predicate LegShared(t: Terms, fee: nat, platform: int, operator: int, net: int, transfer: int) {
    && net + platform == fee
    && (if Applies(t) then IsFloor(platform, fee as real * t.platformFeeRate.value) else platform == 0)
    && (if Applies(t) && t.shareEnabled then IsFloor(operator, platform as real * OperatorFraction(t))
        else operator == 0)
    && transfer == if Applies(t) && t.feeWallet != "" && t.feeWallet != t.operatorWallet
                   then platform - operator else 0
  }

  /** Rounding down a fraction of a whole amount leaves something between nothing and all of it. */
  lemma FloorOfFraction(n: nat, r: real, f: int)
    requires 0.0 <= r <= 1.0 && IsFloor(f, n as real * r)
    ensures 0 <= f <= n
  {
    assert 0.0 <= n as real * r;
    assert n as real * r <= n as real * 1.0;
  }

  /** Neither the platform's fee nor the operator's part of it can exceed what it is taken from. */
  lemma PartsAreWithin(t: Terms, fee: nat, platform: int, operator: int, net: int, transfer: int)
    requires LegShared(t, fee, platform, operator, net, transfer)
    ensures 0 <= operator <= platform <= fee && 0 <= net && 0 <= transfer
  {
    if Applies(t) {
      FloorOfFraction(fee, t.platformFeeRate.value, platform);
      if t.shareEnabled {
        FloorOfFraction(platform, OperatorFraction(t), operator);
      }
    }
  }

  /** A leg computed part by part agrees with the terms. */
  lemma LegAgrees(t: Terms, fee: nat, platform: int, operator: int, net: int, transfer: int)
    requires platform == if Applies(t) then PartOf(fee, t.platformFeeRate.value) else 0
    requires operator == if Applies(t) && t.shareEnabled then PartOf(platform, OperatorFraction(t)) else 0
    requires net == fee - platform
    requires transfer == if Applies(t) && t.feeWallet != "" && t.feeWallet != t.operatorWallet
                         then platform - operator else 0
    ensures LegShared(t, fee, platform, operator, net, transfer)
  {
  }

  method CalculateRevenueShare(feeX: nat, feeY: nat, t: Terms) returns (s: Share)
    ensures LegShared(t, feeX, s.platformX, s.operatorX, s.netX, s.transferX)
    ensures LegShared(t, feeY, s.platformY, s.operatorY, s.netY, s.transferY)
    ensures s.isCircular <==> Applies(t) && t.feeWallet != "" && t.operatorWallet == t.feeWallet
  {
    var platformX, platformY, operatorX, operatorY := 0, 0, 0, 0;
    var netX, netY: int := feeX, feeY;
    var transferX, transferY := 0, 0;
    var isCircular := false;
    if Applies(t) {
      platformX := PartOf(feeX, t.platformFeeRate.value);
      platformY := PartOf(feeY, t.platformFeeRate.value);
      if t.shareEnabled {
        operatorX := PartOf(platformX, OperatorFraction(t));
        operatorY := PartOf(platformY, OperatorFraction(t));
      }
      netX, netY := feeX - platformX, feeY - platformY;
      isCircular := t.feeWallet != "" && t.operatorWallet == t.feeWallet;
      if !isCircular && t.feeWallet != "" {
        transferX := platformX - operatorX;
        transferY := platformY - operatorY;
      }
    }
    LegAgrees(t, feeX, platformX, operatorX, netX, transferX);
    LegAgrees(t, feeY, platformY, operatorY, netY, transferY);
    s := Share(platformX, platformY, operatorX, operatorY, netX, netY, transferX, transferY, isCircular);
  }

  // ---- Transfers ----

  /** What a list of instructions moves out of the operator's account of one mint. */
  function Moved(instructions: seq<Instruction>, mint: string): int {
    if instructions == [] then 0
    else
      var last := instructions[|instructions| - 1];
      Moved(instructions[..|instructions| - 1], mint)
      + if last.Transfer? && last.mint == mint then last.amount else 0
  }

  /**
   * Carrying the instructions out in order on the accounts the fee wallet has: creating
   * an existing account fails, and so does a transfer to a missing one.
   */
  function Accounts(instructions: seq<Instruction>, existing: set<string>): Option<set<string>> {
    if instructions == [] then Some(existing)
    else
      var before := Accounts(instructions[..|instructions| - 1], existing);
      if before.None? then None
      else
        match instructions[|instructions| - 1]
        case CreateAccount(mint) => if mint in before.value then None else Some(before.value + {mint})
        case Transfer(mint, _) => if mint in before.value then before else None
  }

  lemma AccountsAppend(instructions: seq<Instruction>, i: Instruction, existing: set<string>)
    ensures Moved(instructions + [i], if i.Transfer? then i.mint else "") ==
            Moved(instructions, if i.Transfer? then i.mint else "") + if i.Transfer? then i.amount else 0
    ensures forall mint :: (i.CreateAccount? || i.mint != mint) ==>
        Moved(instructions + [i], mint) == Moved(instructions, mint)
    ensures Accounts(instructions + [i], existing) ==
        var before := Accounts(instructions, existing);
        if before.None? then None
        else if i.CreateAccount? then (if i.mint in before.value then None else Some(before.value + {i.mint}))
        else if i.mint in before.value then before else None
  {
    assert (instructions + [i])[..|instructions + [i]| - 1] == instructions;
  }

  /** The instructions for one leg: an account when the fee wallet has none yet, then the transfer. */
  function LegInstructions(mint: string, amount: int, existing: set<string>): seq<Instruction> {
    if amount < 1 then []
    else (if mint in existing then [] else [CreateAccount(mint)]) + [Transfer(mint, amount)]
  }

  lemma LegMoves(before: seq<Instruction>, mint: string, amount: int, existing: set<string>)
    ensures var after := before + LegInstructions(mint, amount, existing);
      && Moved(after, mint) == Moved(before, mint) + (if amount < 1 then 0 else amount)
      && (forall m :: m != mint ==> Moved(after, m) == Moved(before, m))
      && Accounts(after, existing) ==
         (if amount < 1 || Accounts(before, existing).None? then Accounts(before, existing)
          else if mint in existing then
            (if mint in Accounts(before, existing).value then Accounts(before, existing) else None)
          else if mint in Accounts(before, existing).value then None
          else Some(Accounts(before, existing).value + {mint}))
  {
    if amount >= 1 {
      var made := if mint in existing then before else before + [CreateAccount(mint)];
      if mint !in existing {
        AccountsAppend(before, CreateAccount(mint), existing);
      }
      AccountsAppend(made, Transfer(mint, amount), existing);
      assert made + [Transfer(mint, amount)] == before + LegInstructions(mint, amount, existing);
    } else {
      assert before + LegInstructions(mint, amount, existing) == before;
    }
  }

  /** Both legs: each moves its own amount, nothing else moves, and no instruction fails. */
  lemma BothLegs(mintX: string, x: int, mintY: string, y: int, existing: set<string>)
    requires mintX != mintY && x >= 0 && y >= 0
    ensures var r := LegInstructions(mintX, x, existing) + LegInstructions(mintY, y, existing);
      && Moved(r, mintX) == x && Moved(r, mintY) == y
      && (forall m :: m != mintX && m != mintY ==> Moved(r, m) == 0)
      && Accounts(r, existing).Some?
      && (r == [] <==> x == 0 && y == 0)
  {
    LegMoves([], mintX, x, existing);
    assert [] + LegInstructions(mintX, x, existing) == LegInstructions(mintX, x, existing);
    LegMoves(LegInstructions(mintX, x, existing), mintY, y, existing);
  }

  /** existing says which of the fee wallet's token accounts are found on chain. */
  method BuildPlatformTransferInstructions(mintX: string, mintY: string, s: Share, existing: set<string>)
      returns (r: Settled)
    ensures r.instructions == LegInstructions(mintX, s.transferX, existing)
                              + LegInstructions(mintY, s.transferY, existing)
    ensures (r.platformX, r.platformY, r.operatorX, r.operatorY) ==
            if s.transferX < 1 && s.transferY < 1 then (0, 0, 0, 0)
            else (s.platformX, s.platformY, s.operatorX, s.operatorY)
  {
    var legs := [(mintX, s.transferX), (mintY, s.transferY)];
    var instructions: seq<Instruction> := [];
    for i := 0 to |legs|
      invariant i == 0 ==> instructions == []
      invariant i == 1 ==> instructions == LegInstructions(mintX, s.transferX, existing)
      invariant i == 2 ==> instructions == LegInstructions(mintX, s.transferX, existing)
                                           + LegInstructions(mintY, s.transferY, existing)
    {
      var (mint, amount) := legs[i];
      if amount >= 1 {
        if mint !in existing {
          instructions := instructions + [CreateAccount(mint)];
        }
        instructions := instructions + [Transfer(mint, amount)];
      }
    }
    if |instructions| > 0 {
      return Settled(instructions, s.platformX, s.platformY, s.operatorX, s.operatorY);
    }
    r := Settled(instructions, 0, 0, 0, 0);
  }

  /** A share as the calculation yields it: what is to be transferred is the platform's part less the operator's. */
  predicate Balanced(s: Share, feeWallet: string) {
    && 0 <= s.operatorX <= s.platformX && 0 <= s.operatorY <= s.platformY
    && s.transferX == (if s.isCircular || feeWallet == "" then 0 else s.platformX - s.operatorX)
    && s.transferY == (if s.isCircular || feeWallet == "" then 0 else s.platformY - s.operatorY)
  }

  /**
   * Whichever of its cases applies: what is charged on a leg is what the operator is credited
   * with and what is transferred, the transfers are the ones due, and nothing is charged at all
   * unless something is transferred or the operator is the fee wallet.
   */
  method SettleRevenueShare(mintX: string, mintY: string, s: Share, feeWallet: string, existing: set<string>)
      returns (r: Settled)
    ensures Balanced(s, feeWallet) ==>
        && r.platformX == r.operatorX + s.transferX
        && r.platformY == r.operatorY + s.transferY
        && r.instructions == LegInstructions(mintX, s.transferX, existing)
                             + LegInstructions(mintY, s.transferY, existing)
        && (r.platformX, r.platformY) ==
           if s.isCircular || s.transferX > 0 || s.transferY > 0 then (s.platformX, s.platformY) else (0, 0)
  {
    if s.platformX <= 0 && s.platformY <= 0 {
      return NOTHING_SETTLED;
    }
    if s.isCircular {
      return Settled([], s.platformX, s.platformY, s.platformX, s.platformY);
    }
    if feeWallet == "" {
      return NOTHING_SETTLED;
    }
    r := BuildPlatformTransferInstructions(mintX, mintY, s, existing);
  }

  // ---- The claim ----

  /** Without an applicable rate nothing is taken. */
  lemma NoRateNoFee(t: Terms, fee: nat, platform: int, operator: int, net: int, transfer: int)
    requires LegShared(t, fee, platform, operator, net, transfer)
    ensures !Applies(t) ==> platform == 0 && operator == 0 && transfer == 0
  {
  }

  /** What the terms call for on a leg is this transfer. */
  ghost predicate LegDue(t: Terms, fee: nat, moved: int) {
    exists platform: int, operator: int, net: int :: LegShared(t, fee, platform, operator, net, moved)
  }

  /** A transfer never exceeds the platform's rate. */
  lemma MovedWithinRate(t: Terms, fee: nat, platform: int, operator: int, net: int, transfer: int)
    requires LegShared(t, fee, platform, operator, net, transfer)
    ensures Applies(t) ==> transfer as real <= fee as real * t.platformFeeRate.value
    ensures LegDue(t, fee, transfer)
  {
    PartsAreWithin(t, fee, platform, operator, net, transfer);
  }

  /** Every atomic unit of a claimed leg is kept, credited to the operator, or transferred. */
  predicate Conserved(fee: nat, net: int, operator: int, moved: int) {
    && fee == net + operator + moved
    && 0 <= net && 0 <= operator && 0 <= moved
  }

  /**
   * A fee claim, from the split to its transfers: in every branch each leg is
   * conserved, only the fee wallet is paid, and never more than the platform's rate.
   */
  method SplitClaim(feeX: nat, feeY: nat, mintX: string, mintY: string, t: Terms, existing: set<string>)
      returns (netX: int, netY: int, settled: Settled)
    requires mintX != mintY
    ensures Conserved(feeX, netX, settled.operatorX, Moved(settled.instructions, mintX))
    ensures Conserved(feeY, netY, settled.operatorY, Moved(settled.instructions, mintY))
    ensures forall m :: m != mintX && m != mintY ==> Moved(settled.instructions, m) == 0
    // Carried out in order, no instruction meets a missing or an existing account.
    ensures Accounts(settled.instructions, existing).Some?
    ensures settled.instructions != [] ==> Applies(t) && t.feeWallet != "" && t.feeWallet != t.operatorWallet
    ensures Applies(t) ==>
        && Moved(settled.instructions, mintX) as real <= feeX as real * t.platformFeeRate.value
        && Moved(settled.instructions, mintY) as real <= feeY as real * t.platformFeeRate.value
    // With a separate fee wallet, exactly what the split calls for is moved.
    ensures Applies(t) && t.feeWallet != "" && t.feeWallet != t.operatorWallet ==>
        && LegDue(t, feeX, Moved(settled.instructions, mintX))
        && LegDue(t, feeY, Moved(settled.instructions, mintY))
  {
    var share := CalculateRevenueShare(feeX, feeY, t);
    PartsAreWithin(t, feeX, share.platformX, share.operatorX, share.netX, share.transferX);
    PartsAreWithin(t, feeY, share.platformY, share.operatorY, share.netY, share.transferY);
    NoRateNoFee(t, feeX, share.platformX, share.operatorX, share.netX, share.transferX);
    NoRateNoFee(t, feeY, share.platformY, share.operatorY, share.netY, share.transferY);
    settled := SettleRevenueShare(mintX, mintY, share, t.feeWallet, existing);
    netX, netY := feeX - settled.platformX, feeY - settled.platformY;
    BothLegs(mintX, share.transferX, mintY, share.transferY, existing);
    MovedWithinRate(t, feeX, share.platformX, share.operatorX, share.netX, share.transferX);
    MovedWithinRate(t, feeY, share.platformY, share.operatorY, share.netY, share.transferY);
  }
}
