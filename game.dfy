/**
 * The progression engine of src/lib/game.ts: the XP curve, the reward
 * formula for quest chapters, the level-up loop, the coin increment and the
 * rank tables.
 */
module Game {
  import opened Wrappers
  import opened Store

  // ---------------------------------------------------------------------
  // Level curve
  // ---------------------------------------------------------------------

  /** XP a player at `level` needs to reach the next level. */
  function XpForNextLevel(level: int): (threshold: int)
    ensures threshold > 0 <==> level > 0
    ensures level >= 1 ==> threshold >= 100 && threshold % 100 == 0
  {
    level * 100
  }

  /** Each level costs exactly 100 XP more than the one before, starting at 100 for level 1. */
  lemma ThresholdGrowth(a: int, b: int)
    ensures XpForNextLevel(b) - XpForNextLevel(a) == 100 * (b - a)
    ensures a >= 1 ==> XpForNextLevel(a) >= 100
    ensures a < b ==> XpForNextLevel(a) < XpForNextLevel(b)
  {
  }

  // ---------------------------------------------------------------------
  // Rewards for a graded quest chapter
  // ---------------------------------------------------------------------

  const MinXp := 20

  datatype Rewards = Rewards(xp: int, coin: int)

  /** The divisor of the correctness ratio: never zero. */
  function Divisor(totalQuestions: int): (d: int)
    ensures d >= 1
    ensures totalQuestions >= 1 ==> d == totalQuestions
    ensures totalQuestions < 1 ==> d == 1
  {
    Max(1, totalQuestions)
  }

  /** `Math.round(a / b)`: the nearest integer, halves rounded up. */
  function RoundHalfUp(a: int, b: int): (r: int)
    requires b > 0
    ensures b * (2 * r - 1) <= 2 * a < b * (2 * r + 1)
  {
    (2 * a + b) / (2 * b)
  }

  /**
   * `calculateRewards`: XP is the base XP scaled by the fraction answered
   * correctly, rounded, but never below 20; coin is the base coin scaled the
   * same way, rounded down; a replay halves both, rounding down.
   */
  function CalculateRewards(baseXp: int, baseCoin: int, correctAnswers: int,
                            totalQuestions: int, isReplay: bool): (r: Rewards)
    ensures !isReplay ==> r.xp >= MinXp
    ensures isReplay ==> r.xp >= MinXp / 2
    // without replay, xp is the nearest integer to baseXp * correct / total, or 20 when that is below 20
    ensures !isReplay ==>
      var d, a := Divisor(totalQuestions), baseXp * correctAnswers;
      (r.xp == MinXp && 2 * a < d * (2 * MinXp + 1)) ||
      (r.xp > MinXp && d * (2 * r.xp - 1) <= 2 * a < d * (2 * r.xp + 1))
    // coin is baseCoin * correct / total rounded down, and a replay earns half of that, rounded down
    ensures !isReplay ==>
      var d, a := Divisor(totalQuestions), baseCoin * correctAnswers;
      d * r.coin <= a < d * (r.coin + 1)
    ensures isReplay ==>
      var d, a := Divisor(totalQuestions), baseCoin * correctAnswers;
      2 * d * r.coin <= a < 2 * d * (r.coin + 1)
  {
    var d := Divisor(totalQuestions);
    var xp := Max(MinXp, RoundHalfUp(baseXp * correctAnswers, d));
    var coin := baseCoin * correctAnswers / d;
    FloorDiv(baseCoin * correctAnswers, d);
    FloorOfHalfFloor(baseCoin * correctAnswers, d);
    if isReplay then Rewards(xp / 2, coin / 2) else Rewards(xp, coin)
  }

  /** Floor division by a positive divisor leaves a remainder in [0, d). */
  lemma FloorDiv(a: int, d: int)
    requires d >= 1
    ensures d * (a / d) <= a < d * (a / d + 1)
  {
    var q := a / d;
    assert a == d * q + a % d;
    assert d * (q + 1) == d * q + d;
  }

  /** Halving a quotient rounded down is dividing by twice the divisor. */
  lemma FloorOfHalfFloor(a: int, d: int)
    requires d >= 1
    ensures 2 * d * ((a / d) / 2) <= a < 2 * d * ((a / d) / 2 + 1)
  {
    var q := a / d;
    var h := q / 2;
    assert d * q <= a < d * q + d;
    assert 2 * h <= q <= 2 * h + 1;
    MulMonotone(d, 2 * h, q);
    MulMonotone(d, q, 2 * h + 1);
    assert d * (2 * h) <= d * q;
    assert d * q <= d * (2 * h + 1);
  }

  lemma MulMonotone(d: int, x: int, y: int)
    requires d >= 0 && x <= y
    ensures d * x <= d * y
  {
    assert d * y - d * x == d * (y - x);
  }

  /** Floor division by a positive divisor is monotone in the dividend. */
  lemma DivMonotone(a: int, b: int, d: int)
    requires d >= 1 && a <= b
    ensures a / d <= b / d
  {
    var qa, qb := a / d, b / d;
    assert d * qa <= a;
    assert b < d * qb + d;
    if qa > qb {
      MulMonotone(d, qb + 1, qa);
      assert false;
    }
  }

  /** A quotient rounded down stays below m + 1 when the dividend does. */
  lemma DivBelow(a: int, d: int, m: int)
    requires d >= 1 && a < d * (m + 1)
    ensures a / d <= m
  {
    var q := a / d;
    assert d * q <= a;
    if q > m {
      MulMonotone(d, m + 1, q);
      assert false;
    }
  }

  /** The quotient of d * q + r by d is q when 0 <= r < d. */
  lemma DivExact(q: int, r: int, d: int)
    requires d >= 1 && 0 <= r < d
    ensures (d * q + r) / d == q
  {
    var x := d * q + r;
    var q' := x / d;
    assert d * q' <= x < d * q' + d;
    if q' < q {
      MulMonotone(d, q' + 1, q);
      assert false;
    } else if q' > q {
      MulMonotone(d, q + 1, q');
      assert false;
    }
  }

  /** A replay earns exactly half the first-completion rewards, rounded down. */
  lemma ReplayHalvesRewards(baseXp: int, baseCoin: int, correct: int, total: int)
    ensures var full := CalculateRewards(baseXp, baseCoin, correct, total, false);
      CalculateRewards(baseXp, baseCoin, correct, total, true) == Rewards(full.xp / 2, full.coin / 2)
    ensures CalculateRewards(baseXp, baseCoin, correct, total, true).xp >= 10
  {
  }

  /** For 0 <= c <= t and base >= 0, the product base * c lies in [0, base * t]. */
  lemma ScaledProduct(base: int, c: int, t: int)
    requires 0 <= c <= t && base >= 0
    ensures 0 <= base * c <= t * base
  {
    MulMonotone(base, c, t);
    MulMonotone(base, 0, c);
    assert base * t == t * base;
  }

  /** A non-negative dividend has a non-negative quotient. */
  lemma DivNonNegative(a: int, d: int)
    requires a >= 0 && d >= 1
    ensures a / d >= 0
  {
    var q := a / d;
    FloorDiv(a, d);
    if q < 0 {
      MulMonotone(d, q + 1, 0);
      assert false;
    }
  }

  /** A dividend in [0, d * m] has its quotient by d in [0, m]. */
  lemma QuotientWithin(a: int, d: int, m: int)
    requires d >= 1 && 0 <= a <= d * m
    ensures 0 <= a / d <= m
  {
    assert d * (m + 1) == d * m + d;
    DivBelow(a, d, m);
    DivNonNegative(a, d);
  }

  /** For 0 <= c <= t and base >= 0, base * c / t rounds, either way, into [0, base]. */
  lemma {:induction false} ScaledWithinBase(base: int, c: int, t: int)
    requires 0 <= c <= t && t >= 1 && base >= 0
    ensures 0 <= base * c / t <= base
    ensures 0 <= RoundHalfUp(base * c, t) <= base
  {
    var a := base * c;
    ScaledProduct(base, c, t);
    QuotientWithin(a, t, base);
    assert (2 * t) * (base + 1) == 2 * (t * base) + 2 * t;
    DivBelow(2 * a + t, 2 * t, base);
    DivNonNegative(2 * a + t, 2 * t);
  }

  /**
   * For a well-formed result and non-negative bases, first-completion XP lies
   * between 20 and max(20, baseXp) and coin between 0 and baseCoin.
   */
  lemma {:induction false} RewardBounds(baseXp: int, baseCoin: int, correct: int, total: int)
    requires 0 <= correct <= total && baseXp >= 0 && baseCoin >= 0
    ensures var r := CalculateRewards(baseXp, baseCoin, correct, total, false);
      MinXp <= r.xp <= Max(MinXp, baseXp) && 0 <= r.coin <= baseCoin
  {
    if total == 0 {
      assert baseXp * correct == 0 && baseCoin * correct == 0;
    } else {
      ScaledWithinBase(baseXp, correct, total);
      ScaledWithinBase(baseCoin, correct, total);
    }
  }

  /** Answering more questions correctly never earns less. */
  lemma {:induction false} RewardsMonotone(baseXp: int, baseCoin: int, c1: int, c2: int, total: int, isReplay: bool)
    requires baseXp >= 0 && baseCoin >= 0 && c1 <= c2
    ensures var r1, r2 := CalculateRewards(baseXp, baseCoin, c1, total, isReplay),
                          CalculateRewards(baseXp, baseCoin, c2, total, isReplay);
      r1.xp <= r2.xp && r1.coin <= r2.coin
  {
    var d := Divisor(total);
    MulMonotone(baseXp, c1, c2);
    MulMonotone(baseCoin, c1, c2);
    DivMonotone(2 * (baseXp * c1) + d, 2 * (baseXp * c2) + d, 2 * d);
    DivMonotone(baseCoin * c1, baseCoin * c2, d);
    var x1, x2 := RoundHalfUp(baseXp * c1, d), RoundHalfUp(baseXp * c2, d);
    var k1, k2 := baseCoin * c1 / d, baseCoin * c2 / d;
    DivMonotone(Max(MinXp, x1), Max(MinXp, x2), 2);
    DivMonotone(k1, k2, 2);
  }

  /** A perfect score earns the full base coin and max(20, baseXp) XP. */
  lemma PerfectScoreEarnsBase(baseXp: int, baseCoin: int, total: int)
    requires total >= 1
    ensures CalculateRewards(baseXp, baseCoin, total, total, false) == Rewards(Max(MinXp, baseXp), baseCoin)
  {
    assert 2 * (baseXp * total) + total == (2 * total) * baseXp + total;
    DivExact(baseXp, total, 2 * total);
    assert baseCoin * total == total * baseCoin + 0;
    DivExact(baseCoin, 0, total);
  }

  /** No correct answer earns no coin, but first completion still earns the 20 XP floor. */
  lemma NothingCorrect(baseXp: int, baseCoin: int, total: int, isReplay: bool)
    ensures CalculateRewards(baseXp, baseCoin, 0, total, isReplay) ==
            if isReplay then Rewards(MinXp / 2, 0) else Rewards(MinXp, 0)
  {
    var d := Divisor(total);
    assert baseXp * 0 == 0 && baseCoin * 0 == 0;
    DivExact(0, d, 2 * d);
    assert RoundHalfUp(0, d) == 0;
    DivExact(0, 0, d);
    assert 0 / d == 0;
  }

  /** The chapter with xpReward 50 and coinReward 5: three of five correct, then the same as a replay. */
  lemma ThreeOfFiveExample()
    ensures CalculateRewards(50, 5, 3, 5, false) == Rewards(30, 3)
    ensures CalculateRewards(50, 5, 3, 5, true) == Rewards(15, 1)
  {
  }

  // ---------------------------------------------------------------------
  // The level-up loop of addXpToUser
  // ---------------------------------------------------------------------

  /** The (xp, level, xpNext) columns the level-up loop works on. */
  datatype Progress = Progress(xp: int, level: int, xpNext: int)

  /** The loop terminates from every state with a positive threshold and a non-negative level. */
  predicate CanSettle(p: Progress) { p.xpNext > 0 && p.level >= 0 }

  /**
   * The state the level-up loop ends in: while xp reaches the threshold,
   * spend the threshold, go up one level and take that level's threshold.
   */
  function Settle(p: Progress): (q: Progress)
    requires CanSettle(p)
    ensures CanSettle(q) && q.xp < q.xpNext
    ensures q.level >= p.level
    ensures q.level > p.level <==> p.xp >= p.xpNext
    ensures q.xp >= 0 <==> p.xp >= 0
    ensures q.level == p.level ==> q == p
    ensures q.level > p.level ==> q.xpNext == XpForNextLevel(q.level)
    decreases p.xp
  {
    if p.xp < p.xpNext then p
    else Settle(Progress(p.xp - p.xpNext, p.level + 1, XpForNextLevel(p.level + 1)))
  }

  /** Total of the thresholds of the levels lo .. hi-1. */
  function SumThresholds(lo: int, hi: int): int
    decreases hi - lo
  {
    if lo >= hi then 0 else XpForNextLevel(lo) + SumThresholds(lo + 1, hi)
  }

  /** XP spent by the loop to go from `p.level` to `newLevel`: the first threshold is the stored one. */
  function Consumed(p: Progress, newLevel: int): int
  {
    if newLevel <= p.level then 0 else p.xpNext + SumThresholds(p.level + 1, newLevel)
  }

  /** XP is conserved: what the player had is what is left plus the thresholds spent. */
  lemma {:induction false} SettleConservesXp(p: Progress)
    requires CanSettle(p)
    ensures p.xp == Settle(p).xp + Consumed(p, Settle(p).level)
    decreases p.xp
  {
    if p.xp >= p.xpNext {
      var p' := Progress(p.xp - p.xpNext, p.level + 1, XpForNextLevel(p.level + 1));
      SettleConservesXp(p');
    }
  }

  /** Closed form of the thresholds from level lo up to level hi. */
  lemma {:induction false} SumThresholdsClosedForm(lo: int, hi: int)
    requires lo <= hi
    ensures SumThresholds(lo, hi) == 50 * (hi - lo) * (lo + hi - 1)
    decreases hi - lo
  {
    if lo < hi {
      SumThresholdsClosedForm(lo + 1, hi);
      assert 50 * (hi - lo - 1) * (lo + hi) == 50 * (hi - lo) * (lo + hi - 1) - 100 * lo;
    }
  }

  /**
   * From a state whose threshold follows the curve, receiving exactly the
   * thresholds of k levels plus less than the next one gains exactly k
   * levels and leaves that remainder.
   */
  lemma {:induction false} SettleJumpsLevels(level: int, k: nat, rest: int)
    requires level >= 1 && 0 <= rest < XpForNextLevel(level + k)
    ensures Settle(Progress(SumThresholds(level, level + k) + rest, level, XpForNextLevel(level)))
         == Progress(rest, level + k, XpForNextLevel(level + k))
    decreases k
  {
    if k > 0 {
      SettleJumpsLevels(level + 1, k - 1, rest);
      assert SumThresholds(level, level + k) == XpForNextLevel(level) + SumThresholds(level + 1, level + k);
      SumThresholdsNonNegative(level + 1, level + k);
    }
  }

  lemma {:induction false} SumThresholdsNonNegative(lo: int, hi: int)
    requires lo >= 0
    ensures SumThresholds(lo, hi) >= 0
    decreases hi - lo
  {
    if lo < hi {
      SumThresholdsNonNegative(lo + 1, hi);
    }
  }

  /** One full threshold exactly goes up one level and leaves no XP; 650 XP from level 1 goes up three. */
  lemma LevelUpExamples()
    ensures Settle(Progress(100, 1, 100)) == Progress(0, 2, 200)
    ensures Settle(Progress(650, 1, 100)) == Progress(50, 4, 400)
  {
    SettleJumpsLevels(1, 3, 50);
  }

  /** The `while (xp >= xpNext)` loop, on the three columns. */
  method LevelUp(xp0: int, level0: int, xpNext0: int) returns (xp: int, level: int, xpNext: int)
    requires CanSettle(Progress(xp0, level0, xpNext0))
    ensures Progress(xp, level, xpNext) == Settle(Progress(xp0, level0, xpNext0))
  {
    xp, level, xpNext := xp0, level0, xpNext0;
    while xp >= xpNext
      invariant CanSettle(Progress(xp, level, xpNext))
      invariant Settle(Progress(xp, level, xpNext)) == Settle(Progress(xp0, level0, xpNext0))
      decreases xp
    {
      xp := xp - xpNext;
      level := level + 1;
      xpNext := XpForNextLevel(level);
    }
  }

  /** What `addXpToUser` reports. */
  datatype XpResult = XpResult(newXp: int, newLevel: int, leveledUp: bool, levelsGained: int)

  /** `addXpToUser`: add the XP, run the level-up loop and write xp, level and xpNext back. */
  method AddXpToUser(user: User, xpAmount: int) returns (r: XpResult)
    requires user.CanLevel()
    modifies user`xp, user`level, user`xpNext
    ensures Progress(user.xp, user.level, user.xpNext)
         == Settle(Progress(old(user.xp) + xpAmount, old(user.level), old(user.xpNext)))
    ensures user.CanLevel() && user.xp < user.xpNext
    ensures r.newXp == user.xp && r.newLevel == user.level
    ensures r.levelsGained == user.level - old(user.level) >= 0
    ensures r.leveledUp <==> r.levelsGained > 0
  {
    var originalLevel := user.level;
    var xp, level, xpNext := LevelUp(user.xp + xpAmount, user.level, user.xpNext);
    user.xp, user.level, user.xpNext := xp, level, xpNext;
    r := XpResult(xp, level, level > originalLevel, level - originalLevel);
  }

  /** `addCoinsToUser`: increment the stored balance and return the new one. */
  method AddCoinsToUser(user: User, coinAmount: int) returns (balance: int)
    modifies user`coin
    ensures user.coin == old(user.coin) + coinAmount
    ensures balance == user.coin
  {
    user.coin := user.coin + coinAmount;
    balance := user.coin;
  }

  // ---------------------------------------------------------------------
  // Ranks
  // ---------------------------------------------------------------------

  datatype Rank = Novice | Bronze | Silver | Gold | Platinum | Diamond | Master | Grandmaster
  {
    /** Position in the order Novice < Bronze < ... < Grandmaster. */
    function Ordinal(): nat
    {
      match this
      case Novice => 0 case Bronze => 1 case Silver => 2 case Gold => 3
      case Platinum => 4 case Diamond => 5 case Master => 6 case Grandmaster => 7
    }

    /** Lowest level of the band (Novice has no lower bound). */
    function Floor(): int
    {
      match this
      case Novice => 0 case Bronze => 5 case Silver => 10 case Gold => 15
      case Platinum => 20 case Diamond => 30 case Master => 40 case Grandmaster => 50
    }

    function Name(): string
    {
      match this
      case Novice => "Novice" case Bronze => "Bronze" case Silver => "Silver" case Gold => "Gold"
      case Platinum => "Platinum" case Diamond => "Diamond" case Master => "Master"
      case Grandmaster => "Grandmaster"
    }

    /** The badge colour of the band. */
    function Color(): string
    {
      match this
      case Novice => "#607d8b" case Bronze => "#cd7f32" case Silver => "#9e9e9e" case Gold => "#ffc107"
      case Platinum => "#4caf50" case Diamond => "#00bcd4" case Master => "#9c27b0"
      case Grandmaster => "#ff4444"
    }
  }

  /**
   * `getRankFromLevel`: the highest band whose floor the level reaches, and
   * Novice below Bronze.
   */
  function RankFromLevel(level: int): (r: Rank)
    ensures r == Novice || r.Floor() <= level
    ensures forall s: Rank :: s.Ordinal() > r.Ordinal() ==> level < s.Floor()
  {
    if level >= 50 then Grandmaster
    else if level >= 40 then Master
    else if level >= 30 then Diamond
    else if level >= 20 then Platinum
    else if level >= 15 then Gold
    else if level >= 10 then Silver
    else if level >= 5 then Bronze
    else Novice
  }

  /** The names `getRankFromLevel` returns tell the bands apart: equal names iff equal ranks. */
  lemma RankNamesDistinct(a: int, b: int)
    ensures RankFromLevel(a).Name() == RankFromLevel(b).Name() <==> RankFromLevel(a) == RankFromLevel(b)
  {
  }

  /** A higher level never has a lower rank. */
  lemma RankMonotone(a: int, b: int)
    requires a <= b
    ensures RankFromLevel(a).Ordinal() <= RankFromLevel(b).Ordinal()
  {
  }

  /** `getRankColor`: a colour per level band. */
  function RankColor(level: int): (color: string)
    ensures color == RankFromLevel(level).Color()
  {
    if level >= 50 then "#ff4444"
    else if level >= 40 then "#9c27b0"
    else if level >= 30 then "#00bcd4"
    else if level >= 20 then "#4caf50"
    else if level >= 15 then "#ffc107"
    else if level >= 10 then "#9e9e9e"
    else if level >= 5 then "#cd7f32"
    else "#607d8b"
  }

  /** The colour switches exactly where the rank does: same colour iff same rank. */
  lemma RankColorFollowsRank(a: int, b: int)
    ensures RankColor(a) == RankColor(b) <==> RankFromLevel(a) == RankFromLevel(b)
  {
  }
}
