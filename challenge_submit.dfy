/**
 * POST /api/challenge/submit (src/app/api/challenge/submit/route.ts): grade
 * the submitted answers against the question table, pay 10 points per
 * correct answer as XP and half of that as coin, and record the attempt.
 */
module ChallengeSubmit {
  import opened Wrappers
  import opened Json
  import opened Store
  import opened Game
  import Challenge

  /** One element of `answers` once it has the expected shape. */
  datatype SubmitAnswer = SubmitAnswer(questionId: int, answer: string)

  // ---------------------------------------------------------------------
  // Reading the body
  // ---------------------------------------------------------------------

  /** How `const { answers } = body` and the later reads of its elements turn out. */
  datatype AnswersField =
    | Throws                                  // a TypeError or a rejected query: the 500 path
    | NotAnArray                              // `!answers || !Array.isArray(answers)`: the 400 path
    | AnswerList(answers: seq<SubmitAnswer>)

  function ParseAnswer(v: Value): Option<SubmitAnswer>
  {
    var id, a := Get(v, "questionId"), Get(v, "answer");
    if id.Num? && a.Str? then Some(SubmitAnswer(id.n, a.s)) else None
  }

  function ParseAnswers(items: seq<Value>): (r: Option<seq<SubmitAnswer>>)
    ensures r.Some? ==> |r.value| == |items|
    ensures r.Some? <==> forall i :: 0 <= i < |items| ==> ParseAnswer(items[i]).Some?
    ensures r.Some? ==> forall i :: 0 <= i < |items| ==> Some(r.value[i]) == ParseAnswer(items[i])
  {
    if items == [] then Some([])
    else
      match (ParseAnswer(items[0]), ParseAnswers(items[1..]))
      case (Some(a), Some(rest)) => Some([a] + rest)
      case _ => None
  }

  /** Destructure `answers`; a null body throws, a missing or non-array field is a bad request. */
  function ReadAnswers(body: Value): (r: AnswersField)
    ensures r.NotAnArray? <==> !IsNullish(body) && !Get(body, "answers").Arr?
    ensures r.AnswerList? <==>
      !IsNullish(body) && Get(body, "answers").Arr? && ParseAnswers(Get(body, "answers").items).Some?
    ensures r.AnswerList? ==> Some(r.answers) == ParseAnswers(Get(body, "answers").items)
  {
    if IsNullish(body) then Throws
    else
      var answers := Get(body, "answers");
      if !answers.Arr? then NotAnArray
      else
        match ParseAnswers(answers.items)
        case Some(list) => AnswerList(list)
        case None => Throws
  }

  // ---------------------------------------------------------------------
  // Grading
  // ---------------------------------------------------------------------

  function LowerChar(c: char): char
  {
    if 'A' <= c <= 'Z' then (c as int + 32) as char else c
  }

  /** `toLowerCase()` on ASCII letters. */
  function ToLower(s: string): (r: string)
    ensures |r| == |s|
    ensures forall i :: 0 <= i < |s| ==> r[i] == LowerChar(s[i])
  {
    if s == [] then [] else [LowerChar(s[0])] + ToLower(s[1..])
  }

  /** `questionMap.get(answer.questionId) === answer.answer.toLowerCase()`. */
  predicate IsCorrect(a: SubmitAnswer, questionMap: map<int, string>)
  {
    a.questionId in questionMap && questionMap[a.questionId] == ToLower(a.answer)
  }

  /** The number of correct answers, counted position by position. */
  function CountCorrect(answers: seq<SubmitAnswer>, questionMap: map<int, string>): (n: int)
    ensures 0 <= n <= |answers|
  {
    if answers == [] then 0
    else
      var last := answers[|answers| - 1];
      CountCorrect(answers[..|answers| - 1], questionMap) + (if IsCorrect(last, questionMap) then 1 else 0)
  }

  /** The positions whose answer is correct. */
  function CorrectPositions(answers: seq<SubmitAnswer>, questionMap: map<int, string>): set<int>
  {
    set i | 0 <= i < |answers| && IsCorrect(answers[i], questionMap)
  }

  /** The count is the number of positions graded correct: every answer counts on its own. */
  lemma {:induction false} CountIsCorrectPositions(answers: seq<SubmitAnswer>, questionMap: map<int, string>)
    ensures CountCorrect(answers, questionMap) == |CorrectPositions(answers, questionMap)|
  {
    if answers != [] {
      var n := |answers| - 1;
      var init := answers[..n];
      CountIsCorrectPositions(init, questionMap);
      var before := CorrectPositions(init, questionMap);
      var after := CorrectPositions(answers, questionMap);
      if IsCorrect(answers[n], questionMap) {
        assert after == before + {n};
      } else {
        assert after == before;
      }
    }
  }

  /** Grading a concatenation adds the counts: duplicates are graded independently. */
  lemma {:induction false} CountCorrectAppend(a: seq<SubmitAnswer>, b: seq<SubmitAnswer>, questionMap: map<int, string>)
    ensures CountCorrect(a + b, questionMap) == CountCorrect(a, questionMap) + CountCorrect(b, questionMap)
    decreases |b|
  {
    if b != [] {
      var n := |b| - 1;
      CountCorrectAppend(a, b[..n], questionMap);
      assert (a + b)[..|a + b| - 1] == a + b[..n];
      assert (a + b)[|a + b| - 1] == b[n];
    } else {
      assert a + b == a;
    }
  }

  /** Every answer is correct exactly when the count reaches the number of answers. */
  lemma {:induction false} AllCorrectIff(answers: seq<SubmitAnswer>, questionMap: map<int, string>)
    ensures CountCorrect(answers, questionMap) == |answers| <==>
            forall i :: 0 <= i < |answers| ==> IsCorrect(answers[i], questionMap)
  {
    if answers != [] {
      var n := |answers| - 1;
      AllCorrectIff(answers[..n], questionMap);
      assert forall i :: 0 <= i < n ==> answers[..n][i] == answers[i];
    }
  }

  /** An answer to a question that is not in the table is never correct. */
  lemma {:induction false} UnknownQuestionNeverCounts(answers: seq<SubmitAnswer>, questionMap: map<int, string>)
    requires forall i :: 0 <= i < |answers| ==> answers[i].questionId !in questionMap
    ensures CountCorrect(answers, questionMap) == 0
  {
    CountIsCorrectPositions(answers, questionMap);
    assert CorrectPositions(answers, questionMap) == {};
  }

  /** The `for (const answer of answers)` loop. */
  method Grade(answers: seq<SubmitAnswer>, questionMap: map<int, string>) returns (correctCount: int)
    ensures correctCount == CountCorrect(answers, questionMap)
  {
    correctCount := 0;
    for i := 0 to |answers|
      invariant correctCount == CountCorrect(answers[..i], questionMap)
    {
      assert answers[..i + 1][..i] == answers[..i];
      if IsCorrect(answers[i], questionMap) {
        correctCount := correctCount + 1;
      }
    }
    assert answers[..|answers|] == answers;
  }

  // ---------------------------------------------------------------------
  // The answer key
  // ---------------------------------------------------------------------

  /** `findMany({ where: { id: { in: questionIds } } })`, in table order. */
  function FetchKeys(table: seq<Challenge.QuestQuestion>, ids: set<int>): (rows: seq<Challenge.QuestQuestion>)
    ensures forall q :: q in rows <==> q in table && q.id in ids
  {
    if table == [] then []
    else
      var init := table[..|table| - 1];
      var last := table[|table| - 1];
      assert table == init + [last];
      FetchKeys(init, ids) + (if last.id in ids then [last] else [])
  }

  /** No later row has the id of row i. */
  predicate LastOfId(rows: seq<Challenge.QuestQuestion>, i: int)
    requires 0 <= i < |rows|
  {
    forall j :: i < j < |rows| ==> rows[j].id != rows[i].id
  }

  /** `new Map(rows.map(q => [q.id, q.jawabanBenar]))`: a later row with the same id replaces an earlier one. */
  function QuestionMap(rows: seq<Challenge.QuestQuestion>): (m: map<int, string>)
    ensures forall id :: id in m <==> exists q :: q in rows && q.id == id
    // the label stored for an id is that of the last row with the id
    ensures forall i :: 0 <= i < |rows| && LastOfId(rows, i) ==> m[rows[i].id] == rows[i].jawabanBenar
  {
    if rows == [] then map[]
    else
      var init := rows[..|rows| - 1];
      var last := rows[|rows| - 1];
      assert rows == init + [last];
      QuestionMap(init)[last.id := last.jawabanBenar]
  }

  function QuestionIds(answers: seq<SubmitAnswer>): (ids: set<int>)
    ensures forall i :: 0 <= i < |answers| ==> answers[i].questionId in ids
    ensures forall id :: id in ids ==> exists i :: 0 <= i < |answers| && answers[i].questionId == id
  {
    set i | 0 <= i < |answers| :: answers[i].questionId
  }

  lemma QuestionMapSnoc(rows: seq<Challenge.QuestQuestion>, x: Challenge.QuestQuestion)
    ensures QuestionMap(rows + [x]) == QuestionMap(rows)[x.id := x.jawabanBenar]
  {
    assert (rows + [x])[..|rows|] == rows;
  }

  /** On every requested id, the map built from the fetched rows agrees with the whole table's. */
  lemma {:induction false} FetchedKeysAgree(table: seq<Challenge.QuestQuestion>, ids: set<int>, id: int)
    requires id in ids
    ensures var fetched, full := QuestionMap(FetchKeys(table, ids)), QuestionMap(table);
      (id in fetched <==> id in full) && (id in full ==> fetched[id] == full[id])
  {
    if table != [] {
      var init, last := table[..|table| - 1], table[|table| - 1];
      assert table == init + [last];
      FetchedKeysAgree(init, ids, id);
      var rows := FetchKeys(init, ids);
      QuestionMapSnoc(init, last);
      if last.id in ids {
        assert FetchKeys(table, ids) == rows + [last];
        QuestionMapSnoc(rows, last);
      } else {
        assert FetchKeys(table, ids) == rows + [];
        assert rows + [] == rows;
        assert id != last.id;
      }
    }
  }

  /** Grading against the fetched answer key is grading against the question table. */
  lemma {:induction false} GradeAgainstTable(answers: seq<SubmitAnswer>, table: seq<Challenge.QuestQuestion>, ids: set<int>)
    requires forall i :: 0 <= i < |answers| ==> answers[i].questionId in ids
    ensures CountCorrect(answers, QuestionMap(FetchKeys(table, ids))) == CountCorrect(answers, QuestionMap(table))
  {
    if answers != [] {
      var n := |answers| - 1;
      GradeAgainstTable(answers[..n], table, ids);
      FetchedKeysAgree(table, ids, answers[n].questionId);
    }
  }

  // ---------------------------------------------------------------------
  // Rewards and the handler
  // ---------------------------------------------------------------------

  const PointsPerCorrect := 10

  datatype ChallengeReward = ChallengeReward(score: int, xpEarned: int, coinEarned: int)

  /** score = correct * 10, xpEarned = score, coinEarned = floor(score / 2). */
  function ChallengeRewardFor(correctCount: int): (r: ChallengeReward)
    ensures r.xpEarned == r.score == PointsPerCorrect * correctCount
    ensures r.coinEarned == 5 * correctCount && 2 * r.coinEarned == r.score
  {
    var score := correctCount * PointsPerCorrect;
    ChallengeReward(score, score, score / 2)
  }

  /** Seven of ten correct: score 70, 70 XP, 35 coin. */
  lemma SevenOfTenExample()
    ensures ChallengeRewardFor(7) == ChallengeReward(70, 70, 35)
  {
  }

  datatype ChallengeResult = ChallengeResult(
    score: int, correctCount: int, totalQuestions: int,
    xpEarned: int, coinEarned: int, leveledUp: bool, newLevel: int)

  datatype SubmitResponse =
    | Unauthorized
    | BadRequest
    | InternalError
    | Graded(result: ChallengeResult)


  /** Look up the answer key of the submitted ids and grade against it. */
  method GradeSubmission(answers: seq<SubmitAnswer>, table: seq<Challenge.QuestQuestion>) returns (correctCount: int)
    ensures correctCount == CountCorrect(answers, QuestionMap(table))
  {
    var questionIds := QuestionIds(answers);
    var questionMap := QuestionMap(FetchKeys(table, questionIds));
    correctCount := Grade(answers, questionMap);
    GradeAgainstTable(answers, table, questionIds);
  }

  /** The writes of a graded submission: XP, coin, one score row and the date, in the source's order. */
  method RecordChallenge(user: User, reward: ChallengeReward, now: int) returns (xpResult: XpResult)
    requires user.CanLevel()
    modifies user
    ensures Progress(user.xp, user.level, user.xpNext)
         == Settle(Progress(old(user.xp) + reward.xpEarned, old(user.level), old(user.xpNext)))
    ensures user.coin == old(user.coin) + reward.coinEarned
    ensures user.challengeScores == old(user.challengeScores) + [ChallengeScore(user.id, reward.score)]
    ensures user.lastChallengeDate == Some(now)
    ensures user.inventory == old(user.inventory)
    ensures xpResult.newLevel == user.level
    ensures xpResult.leveledUp <==> user.level > old(user.level)
  {
    xpResult := AddXpToUser(user, reward.xpEarned);
    var _ := AddCoinsToUser(user, reward.coinEarned);
    user.challengeScores := user.challengeScores + [ChallengeScore(user.id, reward.score)];
    user.lastChallengeDate := Some(now);
  }

  /**
   * The POST handler. `authenticated` stands for a valid session, `user` for
   * the session's row (null when it is missing), `now` for the clock.
   */
  method SubmitChallenge(authenticated: bool, body: Value, table: seq<Challenge.QuestQuestion>, user: User?, now: int)
    returns (resp: SubmitResponse)
    requires user != null ==> user.CanLevel()
    modifies user
    ensures resp == Unauthorized <==> !authenticated
    ensures resp == BadRequest <==> authenticated && ReadAnswers(body).NotAnArray?
    ensures resp == InternalError <==>
      authenticated && (ReadAnswers(body).Throws? || (ReadAnswers(body).AnswerList? && user == null))
    ensures resp.Graded? <==> authenticated && user != null && ReadAnswers(body).AnswerList?
    ensures !resp.Graded? && user != null ==> unchanged(user)
    ensures resp.Graded? ==>
      var answers, res := ReadAnswers(body).answers, resp.result;
      && res.correctCount == CountCorrect(answers, QuestionMap(table))
      && res.totalQuestions == |answers|
      && ChallengeReward(res.score, res.xpEarned, res.coinEarned) == ChallengeRewardFor(res.correctCount)
      && Progress(user.xp, user.level, user.xpNext)
         == Settle(Progress(old(user.xp) + res.xpEarned, old(user.level), old(user.xpNext)))
      && user.coin == old(user.coin) + res.coinEarned
      && user.challengeScores == old(user.challengeScores) + [ChallengeScore(user.id, res.score)]
      && user.lastChallengeDate == Some(now)
      && user.inventory == old(user.inventory)
      && res.newLevel == user.level
      && (res.leveledUp <==> user.level > old(user.level))
  {
    if !authenticated {
      return Unauthorized;
    }
    var field := ReadAnswers(body);
    if field.NotAnArray? {
      return BadRequest;
    }
    if field.Throws? {
      return InternalError;
    }
    var answers := field.answers;
    var correctCount := GradeSubmission(answers, table);

    var reward := ChallengeRewardFor(correctCount);
    if user == null {
      // addXpToUser throws "User not found" before anything is written
      return InternalError;
    }
    var xpResult := RecordChallenge(user, reward, now);
    resp := Graded(ChallengeResult(reward.score, correctCount, |answers|,
                                   reward.xpEarned, reward.coinEarned, xpResult.leveledUp, xpResult.newLevel));
  }
}
