/**
 * In-memory stand-in for the rows the handlers read and write through the
 * database client: one user row, that user's inventory rows and that user's
 * challenge-score rows.
 */
module Store {
  import opened Wrappers

  /** A row of the challenge-score table. */
  datatype ChallengeScore = ChallengeScore(userId: int, score: int)

  class User {
    const id: int
    var level: int
    var xp: int
    var xpNext: int
    var coin: int
    /** Timestamp of the last daily challenge, in milliseconds since the epoch. */
    var lastChallengeDate: Option<int>
    /** Inventory rows: item id to `jumlah` (the owned count). */
    var inventory: map<int, int>
    /** The challenge-score rows of this user, oldest first. */
    var challengeScores: seq<ChallengeScore>

    constructor Load(id: int, level: int, xp: int, xpNext: int, coin: int,
                     lastChallengeDate: Option<int>, inventory: map<int, int>,
                     challengeScores: seq<ChallengeScore>)
      ensures this.id == id && this.level == level && this.xp == xp
      ensures this.xpNext == xpNext && this.coin == coin
      ensures this.lastChallengeDate == lastChallengeDate
      ensures this.inventory == inventory && this.challengeScores == challengeScores
    {
      this.id := id;
      this.level := level;
      this.xp := xp;
      this.xpNext := xpNext;
      this.coin := coin;
      this.lastChallengeDate := lastChallengeDate;
      this.inventory := inventory;
      this.challengeScores := challengeScores;
    }

    /** What the level-up loop of the progression engine needs to terminate. */
    predicate CanLevel()
      reads this
    {
      xpNext > 0 && level >= 0
    }
  }
}
