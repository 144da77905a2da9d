/**
 * The ten-second click-speed test (public/games/click-test): any click on the start screen
 * starts a run, clicks during the run are counted, and any click on the
 * result screen goes back to the start. One best score is kept, replaced
 * only when beaten.
 *
 * As in `ClickTest`, time arrives in the events, the countdown interval is a
 * count of live intervals, and `localStorage` is the `bestScore` field.
 */
module FixedClickTest {
  import opened Scoring
  import opened Geometry
  import opened ClickEffects

  /** A run lasts 10 s, kept in hundredths since the interval subtracts 0.01 s every 10 ms. */
  const RunCentis: nat := 1000
  /** Click markers disappear after 500 ms and grow to radius 50. */
  const EffectLifetime: nat := 500
  const EffectMaxRadius: real := 50.0

  datatype Phase = Idle | Running | Finished

  /** The game object's fields; `timeLeft` is in hundredths of a second. */
  datatype State = State(
    phase: Phase,
    clicks: nat,
    timeLeft: int,
    liveIntervals: nat,
    lastClickTime: int,
    effects: seq<Effect>,
    bestScore: nat,
    cursor: Cursor)

  datatype Event =
    | Click(x: real, y: real, now: int)
    | Move
    | Tick(now: int)
    | Resize(now: int)

  /** The constructor: start screen, best score as read from storage. */
  function Init(stored: nat): State {
    State(Idle, 0, RunCentis, 0, 0, [], stored, Auto)
  }

  /** The part of `render` that changes state: while running, click markers are pruned. */
  function Render(s: State, now: int): State {
    if s.phase == Running then s.(effects := Prune(s.effects, now, EffectLifetime)) else s
  }

  /** `startGame`: a fresh ten-second run with one new countdown interval. */
  function StartGame(s: State, now: int): State {
    Render(s.(phase := Running, clicks := 0, timeLeft := RunCentis, effects := [],
              liveIntervals := s.liveIntervals + 1), now)
  }

  /** `registerClick`: one more click and one new marker. */
  function RegisterClick(s: State, x: real, y: real, now: int): State {
    Render(s.(clicks := s.clicks + 1, lastClickTime := now,
              effects := s.effects + [Spawn(x, y, EffectMaxRadius, now)]), now)
  }

  /** `endGame`: stop the countdown; the best score is replaced only when beaten. */
  function EndGame(s: State): State {
    s.(liveIntervals := if s.liveIntervals > 0 then s.liveIntervals - 1 else 0, phase := Finished,
       bestScore := if s.clicks > s.bestScore then s.clicks else s.bestScore)
  }

  /** `resetGame`: back to the start screen; the best score stays. */
  function ResetGame(s: State): State {
    s.(phase := Idle, clicks := 0, timeLeft := RunCentis, effects := [])
  }

  /** `handleClick`: no hit-test, the phase alone decides. */
  function HandleClick(s: State, x: real, y: real, now: int): State {
    match s.phase
    case Idle => StartGame(s, now)
    case Running => RegisterClick(s, x, y, now)
    case Finished => ResetGame(s)
  }

  /** The interval callback: count down 0.01 s and end at zero. */
  function OnTick(s: State, now: int): State {
    var s1 := s.(timeLeft := Max(0, s.timeLeft - 1));
    Render(if s1.timeLeft <= 0 then EndGame(s1) else s1, now)
  }

  /** One event. A tick arrives only while some interval is live. */
  function Step(s: State, e: Event): State {
    match e
    case Click(x, y, now) => HandleClick(s, x, y, now)
    case Move => s.(cursor := if s.phase == Running then Pointer else Default)
    case Tick(now) => if s.liveIntervals > 0 then OnTick(s, now) else s
    case Resize(now) => Render(s, now)
  }

  function Run(s: State, es: seq<Event>): State
    decreases |es|
  {
    if es == [] then s else Run(Step(s, es[0]), es[1..])
  }

  /** `getCPS`: clicks over the ten seconds. */
  function Cps(clicks: nat): real {
    clicks as real / 10.0
  }

  /** `x.toFixed(1)` read back as a number: the nearest tenth, halves up. */
  function ToTenths(x: real): real {
    Round(x * 10.0) as real / 10.0
  }

  const ClickCuts: seq<real> := [20.0, 40.0, 60.0, 80.0, 100.0]

  /** The six ratings, worst first. */
  const RatingTable: seq<Rating> := [
    Rating("Keep Trying!", "#f44336"), Rating("Average", "#FF9800"), Rating("Good", "#FFC107"),
    Rating("Great!", "#4CAF50"), Rating("Excellent!", "#00ff41"), Rating("INSANE!", "#ff00ff")]

  /** `getRating`, as the cascade the game writes: on the raw click count. */
  function GetRating(clicks: nat): Rating {
    if clicks >= 100 then Rating("INSANE!", "#ff00ff")
    else if clicks >= 80 then Rating("Excellent!", "#00ff41")
    else if clicks >= 60 then Rating("Great!", "#4CAF50")
    else if clicks >= 40 then Rating("Good", "#FFC107")
    else if clicks >= 20 then Rating("Average", "#FF9800")
    else Rating("Keep Trying!", "#f44336")
  }

  /** The "NEW RECORD" banner condition, read against the best score after the update. */
  predicate ShowsNewRecord(s: State) {
    s.clicks >= s.bestScore && s.clicks > 0
  }

  // ---------------------------------------------------------------------
  // Invariant and properties

  function TimeOf(e: Event, t: int): int {
    match e
    case Click(_, _, now) => now
    case Move => t
    case Tick(now) => now
    case Resize(now) => now
  }

  /** Event times never go back, starting no earlier than `t`. */
  ghost predicate ClockOrdered(es: seq<Event>, t: int)
    decreases |es|
  {
    es == [] || (TimeOf(es[0], t) >= t && ClockOrdered(es[1..], TimeOf(es[0], t)))
  }

  function LastTime(es: seq<Event>, t: int): int
    decreases |es|
  {
    if es == [] then t else LastTime(es[1..], TimeOf(es[0], t))
  }

  /**
   * What holds between events when the clock reads `t`: exactly one interval
   * is live while running and none otherwise, the time left is within the
   * run, markers are settled while running, and a finished run's score is
   * at most the best.
   */
  ghost predicate Inv(s: State, t: int) {
    && s.liveIntervals == (if s.phase == Running then 1 else 0)
    && 0 <= s.timeLeft <= RunCentis
    && (s.phase == Running ==> s.timeLeft > 0 && Settled(s.effects, t, EffectLifetime, EffectMaxRadius))
    && (s.phase == Finished ==> s.timeLeft == 0 && s.bestScore >= s.clicks)
  }

  lemma InitInv(stored: nat, t: int)
    ensures Inv(Init(stored), t)
  {
  }

  /**
   * Clicks by phase: on the start screen any point starts a fresh run; while
   * running a click adds exactly one click and one marker; on the result
   * screen any point returns to the start screen, clearing clicks and
   * markers but keeping the best score.
   */
  lemma ClickByPhase(s: State, x: real, y: real, now: int)
    ensures var r := Step(s, Click(x, y, now));
      && (s.phase == Idle ==>
            && r.phase == Running && r.clicks == 0 && r.timeLeft == RunCentis && r.effects == []
            && r.liveIntervals == s.liveIntervals + 1 && r.bestScore == s.bestScore)
      && (s.phase == Running ==>
            && r.phase == Running && r.clicks == s.clicks + 1 && r.timeLeft == s.timeLeft
            && r.effects == Prune(s.effects, now, EffectLifetime) + [Spawn(x, y, EffectMaxRadius, now)])
      && (s.phase == Finished ==>
            && r.phase == Idle && r.clicks == 0 && r.effects == [] && r.bestScore == s.bestScore)
  {
    PruneAfterSpawn(s.effects, x, y, EffectMaxRadius, now, EffectLifetime);
  }

  /**
   * A tick counts down one hundredth, never below zero; the run ends exactly
   * when the time left reaches zero, and then no interval is live.
   */
  lemma TickCountsDown(s: State, now: int, t: int)
    requires Inv(s, t) && s.phase == Running
    ensures var r := Step(s, Tick(now));
      && r.timeLeft == s.timeLeft - 1 >= 0
      && (r.phase == Finished <==> r.timeLeft == 0)
      && (r.phase == Finished ==> r.liveIntervals == 0)
      && (r.phase != Finished ==> r.phase == Running && r.liveIntervals == 1)
  {
  }

  lemma StepPreservesInv(s: State, e: Event, t: int)
    requires Inv(s, t) && TimeOf(e, t) >= t
    ensures Inv(Step(s, e), TimeOf(e, t))
  {
    match e
    case Click(x, y, now) =>
      if s.phase != Finished {
        var r := if s.phase == Idle
                 then s.(phase := Running, clicks := 0, timeLeft := RunCentis, effects := [],
                         liveIntervals := s.liveIntervals + 1)
                 else s.(clicks := s.clicks + 1, lastClickTime := now,
                         effects := s.effects + [Spawn(x, y, EffectMaxRadius, now)]);
        PruneSettles(r.effects, now, EffectLifetime, EffectMaxRadius);
      }
    case Move =>
    case Tick(now) =>
      if s.phase == Running && s.timeLeft > 1 {
        PruneSettles(s.effects, now, EffectLifetime, EffectMaxRadius);
      }
    case Resize(now) =>
      if s.phase == Running {
        PruneSettles(s.effects, now, EffectLifetime, EffectMaxRadius);
      }
  }

  lemma {:induction false} RunPreservesInv(s: State, es: seq<Event>, t: int)
    requires Inv(s, t) && ClockOrdered(es, t)
    ensures Inv(Run(s, es), LastTime(es, t))
    decreases |es|
  {
    if es != [] {
      StepPreservesInv(s, es[0], t);
      RunPreservesInv(Step(s, es[0]), es[1..], TimeOf(es[0], t));
    }
  }

  /**
   * The best score after a run is the larger of the old best and the score;
   * a tie does not overwrite it, and no step lowers it.
   */
  lemma StepBest(s: State, e: Event)
    ensures Step(s, e).bestScore >= s.bestScore
    ensures Step(s, e).bestScore != s.bestScore ==> Step(s, e).bestScore == s.clicks > s.bestScore
  {
  }

  lemma {:induction false} RunKeepsBest(s: State, es: seq<Event>)
    ensures Run(s, es).bestScore >= s.bestScore
    decreases |es|
  {
    if es != [] {
      StepBest(s, es[0]);
      RunKeepsBest(Step(s, es[0]), es[1..]);
    }
  }

  /**
   * A run that only ties an older positive record leaves the record as it
   * was, yet the result screen shows the "NEW RECORD" banner.
   */
  lemma TieShowsNewRecord(s: State, now: int, t: int)
    requires Inv(s, t) && s.phase == Running && s.timeLeft == 1
    requires s.clicks == s.bestScore > 0
    ensures var r := Step(s, Tick(now));
      r.phase == Finished && r.bestScore == s.bestScore && ShowsNewRecord(r)
  {
  }

  /** After a run, the banner shows exactly when the score is positive and equals the best. */
  lemma NewRecordIffEqualsBest(s: State, t: int)
    requires Inv(s, t) && s.phase == Finished
    ensures ShowsNewRecord(s) <==> s.clicks > 0 && s.clicks == s.bestScore
  {
  }

  /** The cascade is the table entry at the tier of the click count. */
  lemma RatingByTier(clicks: nat)
    ensures GetRating(clicks) == RatingTable[Tier(clicks as real, ClickCuts)]
  {
    assert Ascending(ClickCuts);
    TierPrefix(clicks as real, ClickCuts);
    assert ClickCuts[0] == 20.0 && ClickCuts[1] == 40.0 && ClickCuts[2] == 60.0 && ClickCuts[3] == 80.0 && ClickCuts[4] == 100.0;
  }

  /** More clicks never earn a lower rating. */
  lemma RatingMonotone(c: nat, d: nat)
    requires c <= d
    ensures Tier(c as real, ClickCuts) <= Tier(d as real, ClickCuts)
    ensures GetRating(c) == RatingTable[Tier(c as real, ClickCuts)] && GetRating(d) == RatingTable[Tier(d as real, ClickCuts)]
  {
    TierMonotone(c as real, d as real, ClickCuts);
    RatingByTier(c);
    RatingByTier(d);
  }

  /** The rate shown with one decimal is the exact rate: clicks over ten seconds need no rounding. */
  lemma CpsShownExactly(clicks: nat)
    ensures ToTenths(Cps(clicks)) == Cps(clicks)
    ensures Cps(clicks) * 10.0 == clicks as real
  {
    RoundOfInt(clicks);
    assert Cps(clicks) * 10.0 == clicks as real;
  }

  /** Thirty-seven clicks show as 3.7 clicks per second and rate "Average". */
  lemma ThirtySevenClicks()
    ensures ToTenths(Cps(37)) == 3.7 && GetRating(37) == Rating("Average", "#FF9800")
  {
    CpsShownExactly(37);
  }
}
