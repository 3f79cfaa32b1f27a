/**
 * GET /api/challenge (src/app/api/challenge/route.ts): the once-per-UTC-day
 * gate and the questions handed out for the daily challenge.
 */
module Challenge {
  import opened Wrappers
  import opened Store

  /** Milliseconds in a day: the unit of the date part of `toISOString()`. */
  const MsPerDay := 86400000

  /** `take: 100`. */
  const FetchLimit := 100

  /** `.slice(0, 10)`. */
  const QuestionsPerChallenge := 10

  /** `timeLimit: 180`, in seconds. */
  const TimeLimitSeconds := 180

  /** A row of the quest-question table. */
  datatype QuestQuestion = QuestQuestion(
    id: int, pertanyaan: string,
    pilihanA: Option<string>, pilihanB: Option<string>, pilihanC: Option<string>, pilihanD: Option<string>,
    jawabanBenar: string, minLevel: int)

  /** The selected columns sent to the player: the correct answer is not among them. */
  datatype PublicQuestion = PublicQuestion(
    id: int, pertanyaan: string,
    pilihanA: Option<string>, pilihanB: Option<string>, pilihanC: Option<string>, pilihanD: Option<string>)

  function Public(q: QuestQuestion): PublicQuestion
  {
    PublicQuestion(q.id, q.pertanyaan, q.pilihanA, q.pilihanB, q.pilihanC, q.pilihanD)
  }

  // ---------------------------------------------------------------------
  // The date gate
  // ---------------------------------------------------------------------

  /** The UTC calendar day of a timestamp: `toISOString().split("T")[0]` as a day number. */
  function UtcDay(t: int): (day: int)
    ensures day * MsPerDay <= t < (day + 1) * MsPerDay
  {
    t / MsPerDay
  }

  /** `lastPlayed === today`: both timestamps fall on the same UTC calendar date. */
  function PlayedToday(lastChallengeDate: Option<int>, now: int): (played: bool)
    ensures lastChallengeDate.None? ==> !played
    ensures played ==> -MsPerDay < lastChallengeDate.value - now < MsPerDay
    ensures played ==> exists day ::
      && day * MsPerDay <= lastChallengeDate.value < (day + 1) * MsPerDay
      && day * MsPerDay <= now < (day + 1) * MsPerDay
  {
    lastChallengeDate.Some? && UtcDay(lastChallengeDate.value) == UtcDay(now)
  }

  /** Any two instants of the same UTC day count as already played. */
  lemma SameUtcDayIsPlayed(day: int, last: int, now: int)
    requires day * MsPerDay <= last < (day + 1) * MsPerDay
    requires day * MsPerDay <= now < (day + 1) * MsPerDay
    ensures PlayedToday(Some(last), now)
  {
    assert UtcDay(last) == day && UtcDay(now) == day;
  }

  /** The gate is a calendar date, not a rolling 24 hours: one millisecond across midnight plays again. */
  lemma MidnightResetsGate(day: int)
    ensures !PlayedToday(Some((day + 1) * MsPerDay - 1), (day + 1) * MsPerDay)
  {
    assert UtcDay((day + 1) * MsPerDay - 1) == day;
    assert UtcDay((day + 1) * MsPerDay) == day + 1;
  }

  // ---------------------------------------------------------------------
  // Question selection
  // ---------------------------------------------------------------------

  /** `where: { minLevel: { lte: level } }`, in table order. */
  function Eligible(table: seq<QuestQuestion>, level: int): (r: seq<QuestQuestion>)
    ensures |r| <= |table|
    ensures forall q :: q in r ==> q in table && q.minLevel <= level
    ensures forall q :: q in table && q.minLevel <= level ==> q in r
  {
    if table == [] then []
    else (if table[0].minLevel <= level then [table[0]] else []) + Eligible(table[1..], level)
  }

  /** The query: eligible rows, at most 100 of them. */
  function FetchQuestions(table: seq<QuestQuestion>, level: int): (r: seq<QuestQuestion>)
    ensures |r| == Min(FetchLimit, |Eligible(table, level)|)
    ensures forall q :: q in r ==> q in table && q.minLevel <= level
  {
    var e := Eligible(table, level);
    e[..Min(FetchLimit, |e|)]
  }

  function PublicAll(qs: seq<QuestQuestion>): (r: seq<PublicQuestion>)
    ensures |r| == |qs|
    ensures forall i :: 0 <= i < |qs| ==> r[i] == Public(qs[i])
  {
    if qs == [] then [] else [Public(qs[0])] + PublicAll(qs[1..])
  }

  datatype StartResponse =
    | Unauthorized
    | UserNotFound
    | AlreadyPlayed
    | Started(questions: seq<PublicQuestion>, timeLimit: int)

  /**
   * The GET handler. `authenticated` stands for a valid session, `user` for
   * the session's row (null when it is missing), `now` for the clock.
   */
  function StartChallenge(authenticated: bool, user: User?, table: seq<QuestQuestion>, now: int): (r: StartResponse)
    reads user
    ensures r.Unauthorized? <==> !authenticated
    ensures r.UserNotFound? <==> authenticated && user == null
    ensures r.AlreadyPlayed? <==> authenticated && user != null && PlayedToday(user.lastChallengeDate, now)
    ensures r.Started? ==>
      && user != null
      && r.timeLimit == TimeLimitSeconds
      && |r.questions| == Min(QuestionsPerChallenge, |FetchQuestions(table, user.level)|)
      && forall p :: p in r.questions ==> exists q :: q in table && q.minLevel <= user.level && Public(q) == p
  {
    if !authenticated then Unauthorized
    else if user == null then UserNotFound
    else if PlayedToday(user.lastChallengeDate, now) then AlreadyPlayed
    else
      var fetched := FetchQuestions(table, user.level);
      var chosen := fetched[..Min(QuestionsPerChallenge, |fetched|)];
      var questions := PublicAll(chosen);
      assert forall p :: p in questions ==> exists q :: q in table && q.minLevel <= user.level && Public(q) == p by {
        forall p | p in questions
          ensures exists q :: q in table && q.minLevel <= user.level && Public(q) == p
        {
          var i :| 0 <= i < |questions| && questions[i] == p;
          assert chosen[i] in fetched;
        }
      }
      Started(questions, TimeLimitSeconds)
  }
}
