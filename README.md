# Fundamind progression rules in Dafny

A verified model of the reward and progression rules of the Fundamind math
game (a Next.js application backed by Prisma), together with the request
handlers whose logic goes beyond a single database call.

- `game.dfy`: module `Game`, from `src/lib/game.ts`. It holds the XP curve
  (`level * 100`) and the quest-chapter reward formula. That formula scales
  the base rewards by the fraction answered correctly, puts a floor of 20 on
  XP and halves both rewards on a replay. The module also holds the level-up
  loop of `addXpToUser`, the coin increment of `addCoinsToUser` and the two
  rank tables.
- `challenge.dfy`: module `Challenge`, from `GET /api/challenge`. It models
  the once-per-UTC-calendar-day gate and the questions handed out: only
  questions the player's level allows, at most 100 fetched and 10 returned,
  never with the correct answer, and a 180-second time limit.
- `challenge_submit.dfy`: module `ChallengeSubmit`, from
  `POST /api/challenge/submit`. It checks the body and grades the answers
  against the question table. Labels are compared after lower-casing, an
  unknown question counts as wrong and duplicates count separately. The
  handler pays `10 * correct` XP through the level-up loop and `5 * correct`
  coin, appends one challenge-score row and stamps the last-played date.
- `shop.dfy`: module `ShopBuy`, from `POST /api/shop/buy`. The checks run in
  the order session, body, item, user, level, coin. A rejection changes
  nothing. A purchase debits the price and increments or creates the
  inventory row.
- `validations.dfy`: module `Validations`, from `src/lib/validations.ts`.
  The zod schemas are data for a small schema interpreter. It collects every
  issue, in field order and then in check order, with the source's messages.
  One lemma per schema states exactly which bodies it accepts.
- `leaderboard.dfy`: module `Leaderboard`, from `GET /api/leaderboard`. It
  returns the top 50 users ordered by level, then XP, both descending. Ranks
  run 1..n by position. The avatar enum maps to a `.png` file name, with
  `Ellipse_1.png` as the fallback.
- `store.dfy` (module `Store`), `json.dfy` (module `Json`) and `wrappers.dfy`
  (module `Wrappers`) stand in for the database rows, the parsed JSON body
  and optional values. `Store.User` is one user's row, inventory rows and
  challenge-score rows, updated in place by the handlers.

The database, the session and the clock are parameters. `authenticated`
stands for a valid session. A `User?` that may be null stands for the
session's row. `now` is a timestamp in milliseconds since the epoch.

The submit handler never reads `lastChallengeDate`: the same-day gate
exists only in the GET handler. A second POST on the same day is therefore
graded and paid again, and `SubmitChallenge`'s contract shows this, since
its graded path does not depend on the stored date. The stored correct
label is compared as stored; only the submitted answer is lower-cased.

## Model

| member | source | states |
|---|---|---|
| `Game.XpForNextLevel` | src/lib/game.ts:9-11 | the threshold is positive iff the level is, and from level 1 on it is a multiple of 100 and at least 100 |
| `Game.ThresholdGrowth` | src/lib/game.ts:9-11 | the threshold for level L is L*100: each level costs 100 more than the previous, level 1 and above costs at least 100, and thresholds strictly increase |
| `Game.Divisor` | src/lib/game.ts:23 | the ratio's divisor is max(1, totalQuestions): always at least 1, equal to the total when there are questions, so there is no division by zero |
| `Game.RoundHalfUp` | src/lib/game.ts:26 | `Math.round(a/b)` is the nearest integer to a/b, with halves rounded up |
| `Game.CalculateRewards` | src/lib/game.ts:16-36 | without replay, XP is at least 20 and is the nearest integer to baseXp*correct/max(1,total) unless that is below 20. Coin is baseCoin*correct/max(1,total) rounded down, and on a replay it is that amount halved and rounded down. Replay XP is at least 10 |
| `Game.ReplayHalvesRewards` | src/lib/game.ts:29-33 | replay rewards are exactly floor(xp/2) and floor(coin/2) of the first-completion rewards, so replay XP is at least 10 |
| `Game.RewardBounds` | src/lib/game.ts:23-27 | for 0 <= correct <= total and non-negative bases: 20 <= xp <= max(20, baseXp) and 0 <= coin <= baseCoin |
| `Game.RewardsMonotone` | src/lib/game.ts:23-33 | with non-negative bases, more correct answers never earn less XP or coin, in either mode |
| `Game.PerfectScoreEarnsBase` | src/lib/game.ts:23-27 | a perfect score earns exactly max(20, baseXp) XP and baseCoin coin |
| `Game.NothingCorrect` | src/lib/game.ts:24-33 | zero correct answers earn 0 coin, and 20 XP (10 on a replay) |
| `Game.ThreeOfFiveExample` | prisma/seed.ts:362-363 | for the first chapter's rewards (50 XP, 5 coin), 3 of 5 correct earns (30, 3), and (15, 1) as a replay |
| `Game.Settle` | src/lib/game.ts:59-69 | the loop ends with xp < xpNext and xpNext > 0. The level never drops. A level-up happens iff xp reached xpNext. newXp >= 0 iff xp+amount >= 0. With no level-up the state is unchanged; otherwise xpNext = newLevel*100 |
| `Game.SettleConservesXp` | src/lib/game.ts:59-69 | XP is conserved: the old xp plus the amount equals the new xp plus the thresholds consumed (the stored xpNext, then (L+1)*100, ... up to the new level) |
| `Game.SumThresholdsClosedForm` | src/lib/game.ts:9-11 | going from level lo to level hi consumes 50*(hi-lo)*(lo+hi-1) XP |
| `Game.SettleJumpsLevels` | src/lib/game.ts:59-69 | receiving the thresholds of k levels plus a remainder below the next one gains exactly k levels and leaves that remainder (a multi-level jump in one call) |
| `Game.LevelUpExamples` | src/lib/game.ts:59-69 | exactly one threshold from level 1 gives level 2 with 0 XP, and 650 XP from level 1 gives level 4 with 50 XP |
| `Game.LevelUp` | src/lib/game.ts:64-69 | the `while (xp >= xpNext)` loop terminates and ends in the state `Settle` describes |
| `Game.AddXpToUser` | src/lib/game.ts:41-83 | writes the loop's result to the user's xp, level and xpNext and touches nothing else. It reports newXp and newLevel, levelsGained = newLevel - oldLevel >= 0 and leveledUp iff levelsGained > 0 |
| `Game.AddCoinsToUser` | src/lib/game.ts:88-99 | the coin balance rises by exactly the amount and the new balance is returned |
| `Game.RankFromLevel` | src/lib/game.ts:104-113 | the rank is the highest band whose floor (5/10/15/20/30/40/50) the level reaches, and Novice below 5 |
| `Game.RankNamesDistinct` | src/lib/game.ts:104-113 | the band names returned are equal iff the bands are, so the names tell the ranks apart |
| `Game.RankMonotone` | src/lib/game.ts:104-113 | a higher level never has a lower rank in the order Novice < Bronze < ... < Grandmaster |
| `Game.RankColor` | src/lib/game.ts:118-127 | the colour of a level is the colour of its rank band, from the same thresholds as `getRankFromLevel` |
| `Game.RankColorFollowsRank` | src/lib/game.ts:118-127 | two levels get the same colour iff they get the same rank: the colour switches at the same boundaries |
| `Validations.MatchesWordPattern` | src/lib/validations.ts:13-16 | `/^[a-zA-Z0-9_]+$/` matches iff the string is non-empty and every character is a letter, digit or underscore |
| `Validations.StringIssues` | src/lib/validations.ts:9-17 | a string chain reports no issue iff every check holds, and at most one issue per check |
| `Validations.ValueIssues` | src/lib/validations.ts:20-39 | a value has no issue iff it conforms: a string passing its checks, a number, an enum member, or undefined for an optional field |
| `Validations.FieldIssues` | src/lib/validations.ts:3-39 | an object's fields report no issue iff each field conforms to its schema |
| `Validations.SafeParse` | src/lib/validations.ts:3-39 | parsing succeeds iff the body is an object whose fields all conform. A failure carries at least one issue, and a non-object body fails with a single type issue |
| `Validations.LoginAccepts` | src/lib/validations.ts:3-6 | login is accepted iff username and password are both strings of length >= 1 |
| `Validations.RegisterAccepts` | src/lib/validations.ts:8-18 | registration is accepted iff the username has 3..50 characters, all in [A-Za-z0-9_], and the password has at least 6 |
| `Validations.RegisterIssuesExample` | src/lib/validations.ts:8-18 | every failing check is reported in order: username "a-" gives the min-length and pattern messages, then the password min-length message |
| `Validations.SubmitAnswerAccepts` | src/lib/validations.ts:20-23 | an answer is accepted iff questionId is a number and answer is exactly one of "a", "b", "c", "d" |
| `Validations.BuyItemAccepts` | src/lib/validations.ts:25-27 | a purchase body is accepted iff itemId is a number |
| `Validations.UseItemAccepts` | src/lib/validations.ts:29-32 | using an item needs a numeric itemId. context is optional and, when present, is quest, challenge or boss |
| `Validations.UpdateProfileAccepts` | src/lib/validations.ts:34-39 | bio is optional and at most 500 characters. avatar is optional and one of Ellipse_1..Ellipse_5 |
| `Challenge.UtcDay` | src/app/api/challenge/route.ts:31-33 | the day number of a timestamp is the UTC day whose millisecond interval contains it |
| `Challenge.PlayedToday` | src/app/api/challenge/route.ts:31-34 | a null last date never counts as played. "Played today" implies that both instants lie in the same UTC day interval, and hence less than a day apart. `SameUtcDayIsPlayed` gives the converse |
| `Challenge.SameUtcDayIsPlayed` | src/app/api/challenge/route.ts:31-34 | any two instants on the same UTC calendar day count as already played |
| `Challenge.MidnightResetsGate` | src/app/api/challenge/route.ts:31-34 | the gate is a calendar date, not a rolling 24 hours: one millisecond across UTC midnight is not "already played" |
| `Challenge.Eligible` | src/app/api/challenge/route.ts:43-46 | the query keeps exactly the questions of the table with minLevel <= the user's level |
| `Challenge.FetchQuestions` | src/app/api/challenge/route.ts:43-57 | at most 100 questions are fetched, each from the table and eligible |
| `Challenge.PublicAll` | src/app/api/challenge/route.ts:47-55 | each question sent is the selected columns of its row, without the correct answer |
| `Challenge.StartChallenge` | src/app/api/challenge/route.ts:5-67 | the responses are 401 without a session, 404 without a user row, and "already played" iff the last date is today (with no questions and no time limit). Otherwise it returns min(10, fetched) eligible questions without answers and a 180-second limit |
| `ChallengeSubmit.ParseAnswers` | src/app/api/challenge/submit/route.ts:32-49 | the answer list is read iff every element has a numeric questionId and a string answer. It has one entry per element, carrying that element's questionId and answer |
| `ChallengeSubmit.ReadAnswers` | src/app/api/challenge/submit/route.ts:21-29 | the request is a bad request iff the body is not null and its `answers` is missing or not an array. The answers are read iff the body is not null and `answers` is an array of well-formed elements, and they are then exactly the parsed elements |
| `ChallengeSubmit.ToLower` | src/app/api/challenge/submit/route.ts:49 | lower-casing keeps the length and maps each character |
| `ChallengeSubmit.CountCorrect` | src/app/api/challenge/submit/route.ts:46-52 | 0 <= correctCount <= answers.length |
| `ChallengeSubmit.CountIsCorrectPositions` | src/app/api/challenge/submit/route.ts:46-52 | correctCount is the number of positions whose stored label equals the lower-cased answer |
| `ChallengeSubmit.CountCorrectAppend` | src/app/api/challenge/submit/route.ts:46-52 | grading is additive over concatenation, so duplicate questionIds are graded and counted independently |
| `ChallengeSubmit.AllCorrectIff` | src/app/api/challenge/submit/route.ts:46-52 | correctCount = answers.length iff every answer is correct |
| `ChallengeSubmit.UnknownQuestionNeverCounts` | src/app/api/challenge/submit/route.ts:43-52 | answers to questions with no stored row count 0 |
| `ChallengeSubmit.Grade` | src/app/api/challenge/submit/route.ts:46-52 | the grading loop returns exactly `CountCorrect` |
| `ChallengeSubmit.FetchKeys` | src/app/api/challenge/submit/route.ts:35-41 | the query returns exactly the table rows whose id was asked for |
| `ChallengeSubmit.QuestionMap` | src/app/api/challenge/submit/route.ts:43 | the map's keys are exactly the ids of the fetched rows, and the label stored for an id is the `jawabanBenar` of the last row with that id |
| `ChallengeSubmit.QuestionIds` | src/app/api/challenge/submit/route.ts:32 | the ids requested are exactly the submitted questionIds |
| `ChallengeSubmit.FetchedKeysAgree` | src/app/api/challenge/submit/route.ts:32-43 | on every requested id, the map built from the fetched rows agrees with the whole table's |
| `ChallengeSubmit.GradeAgainstTable` | src/app/api/challenge/submit/route.ts:32-52 | grading against the fetched key equals grading against the whole question table |
| `ChallengeSubmit.ChallengeRewardFor` | src/app/api/challenge/submit/route.ts:55-59 | score = 10 * correct, xpEarned = score, and coinEarned = floor(score/2) = 5 * correct |
| `ChallengeSubmit.SevenOfTenExample` | src/app/api/challenge/submit/route.ts:55-59 | 7 correct gives score 70, 70 XP and 35 coin |
| `ChallengeSubmit.GradeSubmission` | src/app/api/challenge/submit/route.ts:32-52 | looking up the submitted ids and grading against them gives `CountCorrect` against the whole question table |
| `ChallengeSubmit.RecordChallenge` | src/app/api/challenge/submit/route.ts:62-77 | a graded submission runs XP through the level-up loop, raises coin by exactly coinEarned, appends one score row for this user and sets lastChallengeDate to now. The inventory is untouched |
| `ChallengeSubmit.SubmitChallenge` | src/app/api/challenge/submit/route.ts:11-98 | the response is 401 iff there is no session. It is 400 iff there is a session and `answers` is not an array. It is 500 iff there is a session and either the body is null, an element is malformed, or the user row is missing. Every response other than a graded one changes nothing. On success: XP goes through the level-up loop, coin rises by exactly coinEarned, one score row is appended, lastChallengeDate is set to now, the inventory is untouched, and leveledUp/newLevel come from the loop |
| `ShopBuy.BuyItem` | src/app/api/shop/buy/route.ts:6-116 | the checks run in order: 401, then 400 with the first schema issue, then unknown item 404, then missing user 404, then the level check, then the coin check. A rejection leaves the user unchanged. A purchase lowers coin by exactly the price (staying >= 0) and reports that balance. The item's count rises by 1, or a row with 1 is created, and every other row and field is unchanged |
| `Leaderboard.Insert` | src/app/api/leaderboard/route.ts:8 | inserting into a list ordered by level then XP, both descending, keeps it ordered and adds exactly that row |
| `Leaderboard.SortByRank` | src/app/api/leaderboard/route.ts:8 | the ordering is by level descending, then XP descending, and is a permutation of the rows |
| `Leaderboard.CutOrdered` | src/app/api/leaderboard/route.ts:8-9 | cutting an ordered list keeps it ordered and every kept row ranks above every dropped row |
| `Leaderboard.TopUsers` | src/app/api/leaderboard/route.ts:7-17 | the query returns min(50, n) rows in order, taken from the users, and no row left out ranks above a row kept |
| `Leaderboard.AvatarFile` | src/app/api/leaderboard/route.ts:20-32 | Ellipse_k maps to "Ellipse_k.png" and any other value to "Ellipse_1.png" |
| `Leaderboard.Entries` | src/app/api/leaderboard/route.ts:28-35 | the entry at position i has rank offset+i+1. Its id, username, level and xp are copied and its avatar is mapped |
| `Leaderboard.GetLeaderboard` | src/app/api/leaderboard/route.ts:28-41 | the response array has min(50, n) entries, the entry at position i has rank i+1, and each avatar is the file of its row's avatar |
| `Leaderboard.LeaderboardShape` | src/app/api/leaderboard/route.ts:7-35 | at most 50 entries. The entry at position i has rank i+1. Each entry comes from a user row. Entries are ordered by level descending, then XP descending |

## Left out

- Persistence, HTTP, cookies and sessions. Prisma queries become functions
  over in-memory tables and `Store.User` fields. Responses are datatypes
  without status codes or message text, except the schema messages. The
  session becomes the `authenticated` flag. Password hashing, JWT signing
  and the login, register, me, logout, inventory, shop-listing and quest
  routes are not part of this model.
- The avatar map at src/lib/auth.ts:100-114 and src/app/api/auth/me/route.ts:20-32
  is the same function as `Leaderboard.AvatarFile` and is not modelled again.
- `Game.CalculateRewards` uses exact integer arithmetic. The source computes
  a JavaScript double and applies `Math.round` and `Math.floor` to it.
  Results where floating-point error crosses an integer boundary are not
  modelled.
- Numbers in request bodies are integers. Non-integer and NaN numbers are not
  modelled, and string lengths count Unicode scalar values, not UTF-16 code
  units.
- `ChallengeSubmit.ToLower` lower-cases ASCII letters only, not the full
  Unicode case mapping of `toLowerCase`.
- `ChallengeSubmit.ReadAnswers` sends every element that is not an object
  with a numeric `questionId` and a string `answer` to the 500 path. This
  stands in for the TypeError or query error the source would hit. Where
  Prisma might instead accept an odd id, the model does not follow it.
- `Challenge.StartChallenge` keeps the fetch order before taking 10. The
  `Math.random` shuffle is not modelled. Every property it states
  (eligibility, the size bounds, no answers) holds for any order.
- `Challenge.UtcDay` takes the UTC day number of a millisecond timestamp as
  the `YYYY-MM-DD` prefix of `toISOString()`. Invalid dates, whose
  `toISOString` throws, are not modelled.
- `Leaderboard.SortByRank` picks one order among users tied on level and XP.
  The database may pick another.
- Concurrency is not modelled: not the shop's read-then-decrement race, not
  the stale `newBalance` it can report, and not concurrent challenge
  submissions. The handlers' separate writes (XP, coin, score row, date) are
  modelled as one sequential update.
- Inventory rows are a map from item id to count, so the model assumes at
  most one row per user and item; the source looks one up with `findFirst`.
- `Game.Settle`, `Game.LevelUp`, `Game.AddXpToUser` and
  `ChallengeSubmit.SubmitChallenge` require xpNext > 0 and level >= 0
  (`Game.CanSettle`, `Store.User.CanLevel`). The source loop also
  terminates from other integer states. Each pass increments the level, so
  after finitely many passes xpNext = level*100 is positive, and from then
  on xp decreases. The model says nothing about users outside those bounds.
  Seeded users may start with xp >= xpNext or with xpNext != level*100, and
  the model does not assume either invariant.
- Quest-chapter and boss submissions and their persistence are not part of
  this model; only the reward formula they use (`Game.CalculateRewards`) is.
- UI pages and components, including their client-side copies of the rank
  and can-buy rules, are not part of this model.
