/**
 * The stereoscopic-acuity quiz (`GameController`), without its JavaFX widgets:
 * the levels loaded from files, the index of the level on screen, the score,
 * and the seconds counted by the level timer. Labels, buttons, images and the
 * timeline are left out; what they show is kept as fields (`timerRunning`,
 * `diagnosis`).
 */
module Game {
  import opened Images

  /** `maxTimeSeconds`: the time allowed for each level. */
  const MaxTimeSeconds: int := 60

  datatype GameLevel = GameLevel(levelNum: int, stereogram: Stereogram, answerOptions: seq<string>)

  /** The stereoscopic acuity shown at the end of a game, lowest first. */
  datatype Tier = Baja | Media | Buena | Excelente
  {
    function Rank(): nat {
      match this
      case Baja => 0
      case Media => 1
      case Buena => 2
      case Excelente => 3
    }
  }

  /** The points a tier asks for: 2500, 1500 and 500, and none for the lowest. */
  predicate Reaches(t: Tier, points: int) {
    match t
    case Baja => true
    case Media => points >= 500
    case Buena => points >= 1500
    case Excelente => points >= 2500
  }

  /** The diagnosis of `endGame`: the highest tier the points reach. */
  function Diagnose(points: int): (t: Tier)
    ensures Reaches(t, points)
    ensures forall t' :: Reaches(t', points) ==> t'.Rank() <= t.Rank()
  {
    if points >= 2500 then Excelente
    else if points >= 1500 then Buena
    else if points >= 500 then Media
    else Baja
  }

  /** More points never give a lower diagnosis. */
  lemma DiagnoseMonotone(p: int, q: int)
    requires p <= q
    ensures Diagnose(p).Rank() <= Diagnose(q).Rank()
  {
  }

  /**
   * The points a response earns: the seconds left (never below zero) times
   * the level number for the figure's name, nothing for any other answer.
   */
  function LevelScore(level: GameLevel, answer: string, secondsElapsed: int): (points: int)
    ensures answer != level.stereogram.name ==> points == 0
    ensures level.levelNum >= 0 ==> points >= 0
    ensures level.levelNum >= 0 && secondsElapsed >= 0 ==> points <= MaxTimeSeconds * level.levelNum
    ensures answer == level.stereogram.name && secondsElapsed < MaxTimeSeconds && level.levelNum > 0 ==> points > 0
    ensures secondsElapsed >= MaxTimeSeconds ==> points == 0
  {
    if answer == level.stereogram.name then
      var timeRemaining := if MaxTimeSeconds - secondsElapsed > 0 then MaxTimeSeconds - secondsElapsed else 0;
      if level.levelNum >= 0 && secondsElapsed >= 0 then
        MulLeq(0, timeRemaining, level.levelNum);
        MulLeq(timeRemaining, MaxTimeSeconds, level.levelNum);
        timeRemaining * level.levelNum
      else timeRemaining * level.levelNum
    else 0
  }

  /** A faster correct answer never earns fewer points. */
  lemma FasterScoresMore(level: GameLevel, answer: string, s1: int, s2: int)
    requires s1 <= s2 && level.levelNum >= 0
    ensures LevelScore(level, answer, s2) <= LevelScore(level, answer, s1)
  {
    var r1 := if MaxTimeSeconds - s1 > 0 then MaxTimeSeconds - s1 else 0;
    var r2 := if MaxTimeSeconds - s2 > 0 then MaxTimeSeconds - s2 else 0;
    assert r2 <= r1;
    assert r2 * level.levelNum <= r1 * level.levelNum;
  }

  /** The arguments of one `loadLevelFromFile` call. */
  datatype LevelSource = LevelSource(
    numberLevel: int,
    nameFile: string,
    nameFigure: string,
    patternWidth: int,
    maxDepth: int,
    tech: string,
    textureFile: Option<string>,
    options: seq<string>)

  /** The ten levels `loadTestLevels` asks for, in order. */
  const TestLevels: seq<LevelSource> := [
    LevelSource(1, "images.png", "Círculo", 130, 50, "SIS", Some("rocks.jpg"),
                ["Triángulo", "Círculo", "Cuadrado", "Estrella"]),
    LevelSource(2, "cube.png", "Cubo", 130, 40, "SIS", Some("texture.jpg"),
                ["Rectangulo", "Diamante", "Triángulo", "Cubo"]),
    LevelSource(3, "heart.jpg", "Corazón", 130, 50, "SIS", Some("wind.jpg"),
                ["Corazón", "Estrella", "Luna", "Sol"]),
    LevelSource(4, "", "Vaso", 130, 50, "SIS", Some("roses.jpg"),
                ["Vaso", "Plato", "Cucharilla", "Tetera"]),
    LevelSource(5, "cube.png", "Cubo", 130, 50, "RDS", None,
                ["Cubo", "Triangulo", "Nariz", "Mano"]),
    LevelSource(6, "5dots.jpg", "5 puntos", 130, 50, "RDS", None,
                ["3 puntos", "4 puntos", "5 puntos", "6 puntos"]),
    LevelSource(7, "hallo.jpg", "HALLO", 100, 60, "RDS", None,
                ["HELLO", "HALLO", "HALLE", "HELLI"]),
    LevelSource(8, "", "", 130, 50, "RDS", None, ["", "", "", ""]),
    LevelSource(9, "", "", 130, 50, "RDS", None, ["", "", "", ""]),
    LevelSource(10, "", "", 130, 50, "RDS", None, ["", "", "", ""])
  ]

  /** The table numbers its levels 1 to 10. */
  lemma TestLevelsNumbered()
    ensures |TestLevels| == 10
    ensures forall i :: 0 <= i < |TestLevels| ==> TestLevels[i].numberLevel == i + 1
  {
  }

  /**
   * The texture a level gets: the one read from its file for an "SIS" level
   * that names one and whose file loaded; otherwise none, so the level falls
   * back to random dots.
   */
  function ChosenTexture(src: LevelSource, textureRead: Grid<Pixel>): (t: Option<Grid<Pixel>>)
    ensures t.Some? <==> src.tech == "SIS" && src.textureFile.Some? && !textureRead.IsEmpty()
    ensures t.Some? ==> t.value == textureRead
  {
    if src.tech == "SIS" && src.textureFile.Some? then
      if textureRead.IsEmpty() then None else Some(textureRead)
    else None
  }

  /**
   * The level `loadLevelFromFile` adds, given what reading its depth map and
   * texture files returned: none when the depth map did not load.
   */
  function LoadLevel(src: LevelSource, depthRead: Grid<Byte>, textureRead: Grid<Pixel>): (r: Option<GameLevel>)
    ensures r.None? <==> depthRead.IsEmpty()
    ensures r.Some? ==>
      && r.value.levelNum == src.numberLevel
      && r.value.answerOptions == src.options
      && r.value.stereogram.name == src.nameFigure
      && r.value.stereogram.depthMap == Some(depthRead)
      && r.value.stereogram.eyeSep == src.patternWidth
      && r.value.stereogram.focalLen == src.maxDepth
      && r.value.stereogram.texture == ChosenTexture(src, textureRead)
  {
    if depthRead.IsEmpty() then None
    else
      var texture := ChosenTexture(src, textureRead);
      Some(GameLevel(src.numberLevel,
                     Stereogram(src.nameFigure, Some(depthRead), src.patternWidth, src.maxDepth, texture),
                     src.options))
  }

  function AsSeq<T>(o: Option<T>): seq<T> {
    match o
    case None => []
    case Some(v) => [v]
  }

  /** The levels the first `n` sources add, in order. */
  function LoadedLevels(sources: seq<LevelSource>, depthReads: seq<Grid<Byte>>, textureReads: seq<Grid<Pixel>>, n: nat)
    : (levels: seq<GameLevel>)
    requires n <= |sources| == |depthReads| == |textureReads|
    ensures |levels| <= n
  {
    if n == 0 then []
    else
      LoadedLevels(sources, depthReads, textureReads, n - 1)
        + AsSeq(LoadLevel(sources[n - 1], depthReads[n - 1], textureReads[n - 1]))
  }

  /**
   * No loaded level lacks a depth map, and sources numbered from `1` give
   * levels numbered from `1`.
   */
  lemma {:induction false} LoadedLevelsHaveDepth(sources: seq<LevelSource>, depthReads: seq<Grid<Byte>>,
                                                 textureReads: seq<Grid<Pixel>>, n: nat)
    requires n <= |sources| == |depthReads| == |textureReads|
    ensures forall l :: l in LoadedLevels(sources, depthReads, textureReads, n) ==>
              l.stereogram.depthMap.Some? && !l.stereogram.depthMap.value.IsEmpty()
    ensures (forall i :: 0 <= i < n ==> sources[i].numberLevel >= 1) ==>
              forall l :: l in LoadedLevels(sources, depthReads, textureReads, n) ==> l.levelNum >= 1
  {
    if n > 0 {
      LoadedLevelsHaveDepth(sources, depthReads, textureReads, n - 1);
      var prev := LoadedLevels(sources, depthReads, textureReads, n - 1);
      var added := AsSeq(LoadLevel(sources[n - 1], depthReads[n - 1], textureReads[n - 1]));
      assert LoadedLevels(sources, depthReads, textureReads, n) == prev + added;
      assert forall l :: l in prev + added ==> l in prev || l in added;
    }
  }

  /** Every level whose depth map loads is added, so nothing but failed loads is skipped. */
  lemma AllLoadedWhenReadsSucceed(sources: seq<LevelSource>, depthReads: seq<Grid<Byte>>,
                                  textureReads: seq<Grid<Pixel>>, n: nat)
    requires n <= |sources| == |depthReads| == |textureReads|
    requires forall i :: 0 <= i < n ==> !depthReads[i].IsEmpty()
    ensures |LoadedLevels(sources, depthReads, textureReads, n)| == n
    ensures forall i :: 0 <= i < n ==> LoadedLevels(sources, depthReads, textureReads, n)[i].levelNum == sources[i].numberLevel
  {
    AllLoadedCount(sources, depthReads, textureReads, n);
    forall i | 0 <= i < n
      ensures LoadedLevels(sources, depthReads, textureReads, n)[i].levelNum == sources[i].numberLevel
    {
      LoadedNumber(sources, depthReads, textureReads, n, i);
    }
  }

  /** With every read succeeding, level `i` is loaded from source `i`. */
  lemma {:induction false} LoadedNumber(sources: seq<LevelSource>, depthReads: seq<Grid<Byte>>,
                                        textureReads: seq<Grid<Pixel>>, n: nat, i: nat)
    requires i < n <= |sources| == |depthReads| == |textureReads|
    requires forall k :: 0 <= k < n ==> !depthReads[k].IsEmpty()
    ensures i < |LoadedLevels(sources, depthReads, textureReads, n)|
    ensures LoadedLevels(sources, depthReads, textureReads, n)[i].levelNum == sources[i].numberLevel
  {
    var prev := LoadedLevels(sources, depthReads, textureReads, n - 1);
    var loaded := LoadedStep(sources, depthReads, textureReads, n);
    if i < n - 1 {
      LoadedNumber(sources, depthReads, textureReads, n - 1, i);
      assert (prev + [loaded])[i] == prev[i];
    } else {
      AllLoadedCount(sources, depthReads, textureReads, n - 1);
      assert (prev + [loaded])[i] == loaded;
    }
  }

  lemma {:induction false} AllLoadedCount(sources: seq<LevelSource>, depthReads: seq<Grid<Byte>>,
                                          textureReads: seq<Grid<Pixel>>, n: nat)
    requires n <= |sources| == |depthReads| == |textureReads|
    requires forall i :: 0 <= i < n ==> !depthReads[i].IsEmpty()
    ensures |LoadedLevels(sources, depthReads, textureReads, n)| == n
  {
    if n > 0 {
      AllLoadedCount(sources, depthReads, textureReads, n - 1);
      var loaded := LoadedStep(sources, depthReads, textureReads, n);
    }
  }

  /** A source whose depth map loads appends exactly its own level. */
  lemma LoadedStep(sources: seq<LevelSource>, depthReads: seq<Grid<Byte>>, textureReads: seq<Grid<Pixel>>, n: nat)
    returns (loaded: GameLevel)
    requires 0 < n <= |sources| == |depthReads| == |textureReads|
    requires !depthReads[n - 1].IsEmpty()
    ensures loaded.levelNum == sources[n - 1].numberLevel
    ensures LoadedLevels(sources, depthReads, textureReads, n)
         == LoadedLevels(sources, depthReads, textureReads, n - 1) + [loaded]
  {
    loaded := LoadLevel(sources[n - 1], depthReads[n - 1], textureReads[n - 1]).value;
  }

  class GameController {
    var levels: seq<GameLevel>
    var currentLevelIndex: int
    var totalPoints: int
    var secondsElapsed: int
    /** The level timer (`timeline`) is playing. */
    var timerRunning: bool
    /** The diagnosis shown by `endGame`, until a level is shown again. */
    var diagnosis: Option<Tier>

    /**
     * The index stays within the levels, the score is never negative, the
     * clock stays within the allowed time, a running timer belongs to a level
     * on screen, and every level number is positive.
     */
    ghost predicate Consistent()
      reads this
    {
      && 0 <= currentLevelIndex <= |levels|
      && totalPoints >= 0
      && 0 <= secondsElapsed <= MaxTimeSeconds
      && (timerRunning ==> currentLevelIndex < |levels|)
      && (forall l :: l in levels ==> l.levelNum >= 1)
    }

    /** Between timer ticks, a running timer still has time left. */
    ghost predicate Valid()
      reads this
    {
      Consistent() && (timerRunning ==> secondsElapsed < MaxTimeSeconds)
    }

    constructor()
      ensures Valid()
      ensures levels == [] && currentLevelIndex == 0 && totalPoints == 0 && secondsElapsed == 0
      ensures !timerRunning && diagnosis == None
    {
      levels := [];
      currentLevelIndex := 0;
      totalPoints := 0;
      secondsElapsed := 0;
      timerRunning := false;
      diagnosis := None;
    }

    /**
     * `playGame`: resets the index and the score, replaces the levels with
     * those that load, and shows the first (or ends at once if none loaded).
     */
    method PlayGame(depthReads: seq<Grid<Byte>>, textureReads: seq<Grid<Pixel>>)
      requires Valid() && !timerRunning
      requires |depthReads| == |textureReads| == |TestLevels|
      modifies this
      ensures Valid()
      ensures levels == LoadedLevels(TestLevels, depthReads, textureReads, |TestLevels|)
      ensures currentLevelIndex == 0 && totalPoints == 0
      ensures if levels != [] then timerRunning && secondsElapsed == 0 && diagnosis == None
              else !timerRunning && secondsElapsed == old(secondsElapsed) && diagnosis == Some(Diagnose(0))
    {
      currentLevelIndex := 0;
      totalPoints := 0;
      levels := [];
      LoadTestLevels(depthReads, textureReads);
      LoadLevelOnScreen();
    }

    /** `loadTestLevels`: one `loadLevelFromFile` per entry of the table, in order. */
    method LoadTestLevels(depthReads: seq<Grid<Byte>>, textureReads: seq<Grid<Pixel>>)
      requires Valid() && !timerRunning
      requires |depthReads| == |textureReads| == |TestLevels|
      modifies this`levels
      ensures Valid()
      ensures levels == old(levels) + LoadedLevels(TestLevels, depthReads, textureReads, |TestLevels|)
    {
      TestLevelsNumbered();
      LoadLevels(TestLevels, depthReads, textureReads);
    }

    method LoadLevels(sources: seq<LevelSource>, depthReads: seq<Grid<Byte>>, textureReads: seq<Grid<Pixel>>)
      requires Valid() && !timerRunning
      requires |sources| == |depthReads| == |textureReads|
      requires forall i :: 0 <= i < |sources| ==> sources[i].numberLevel >= 1
      modifies this`levels
      ensures Valid()
      ensures levels == old(levels) + LoadedLevels(sources, depthReads, textureReads, |sources|)
    {
      for i := 0 to |sources|
        invariant Valid()
        invariant levels == old(levels) + LoadedLevels(sources, depthReads, textureReads, i)
      {
        LoadLevelFromFile(sources[i], depthReads[i], textureReads[i]);
      }
    }

    /**
     * `loadLevelFromFile`, given what reading its files returned: appends the
     * level unless its depth map failed to load.
     */
    method LoadLevelFromFile(src: LevelSource, depthRead: Grid<Byte>, textureRead: Grid<Pixel>)
      requires Valid() && !timerRunning && src.numberLevel >= 1
      modifies this`levels
      ensures Valid()
      ensures levels == old(levels) + AsSeq(LoadLevel(src, depthRead, textureRead))
    {
      if depthRead.IsEmpty() {
        return;
      }
      var texture: Option<Grid<Pixel>>;
      if src.tech == "SIS" && src.textureFile.Some? {
        if textureRead.IsEmpty() {
          texture := None;
        } else {
          texture := Some(textureRead);
        }
      } else {
        texture := None;
      }
      var stereogram := Stereogram(src.nameFigure, Some(depthRead), src.patternWidth, src.maxDepth, texture);
      levels := levels + [GameLevel(src.numberLevel, stereogram, src.options)];
    }

    /**
     * `loadLevelOnScreen`: while levels remain, show the current one and start
     * its timer from zero; after the last, end the game.
     */
    method LoadLevelOnScreen()
      requires Valid() && !timerRunning
      modifies this`timerRunning, this`secondsElapsed, this`diagnosis
      ensures Valid()
      ensures if currentLevelIndex < |levels| then timerRunning && secondsElapsed == 0 && diagnosis == None
              else !timerRunning && secondsElapsed == old(secondsElapsed) && diagnosis == Some(Diagnose(totalPoints))
    {
      if currentLevelIndex < |levels| {
        diagnosis := None;
        StartTimer();
      } else {
        EndGame();
      }
    }

    /** `startTimer`: the level's clock restarts at zero seconds. */
    method StartTimer()
      requires Valid() && currentLevelIndex < |levels|
      modifies this`timerRunning, this`secondsElapsed
      ensures Valid() && timerRunning && secondsElapsed == 0
    {
      secondsElapsed := 0;
      timerRunning := true;
    }

    /**
     * One second of the level timer: the count goes up by one, and when no time
     * remains the level times out.
     */
    method Tick()
      requires Valid() && timerRunning
      modifies this
      ensures Valid()
      ensures old(secondsElapsed) + 1 < MaxTimeSeconds ==>
        secondsElapsed == old(secondsElapsed) + 1 && timerRunning && diagnosis == old(diagnosis) &&
        levels == old(levels) && currentLevelIndex == old(currentLevelIndex) && totalPoints == old(totalPoints)
      ensures old(secondsElapsed) + 1 >= MaxTimeSeconds ==>
        levels == old(levels) && currentLevelIndex == old(currentLevelIndex) + 1 &&
        totalPoints == old(totalPoints) + LevelScore(old(levels[currentLevelIndex]), "", MaxTimeSeconds) &&
        if currentLevelIndex < |levels| then timerRunning && secondsElapsed == 0 && diagnosis == None
        else !timerRunning && secondsElapsed == MaxTimeSeconds && diagnosis == Some(Diagnose(totalPoints))
    {
      secondsElapsed := secondsElapsed + 1;
      var timeRemaining := MaxTimeSeconds - secondsElapsed;
      if timeRemaining <= 0 {
        ManageTimeOut();
      }
    }

    /** `manageTimeOut`: running out of time is answering the empty string. */
    method ManageTimeOut()
      requires Consistent() && currentLevelIndex < |levels|
      modifies this
      ensures Valid()
      ensures levels == old(levels) && currentLevelIndex == old(currentLevelIndex) + 1
      ensures totalPoints == old(totalPoints) + LevelScore(old(levels[currentLevelIndex]), "", old(secondsElapsed))
      ensures if currentLevelIndex < |levels| then timerRunning && secondsElapsed == 0 && diagnosis == None
              else !timerRunning && secondsElapsed == old(secondsElapsed) && diagnosis == Some(Diagnose(totalPoints))
    {
      HandleResponse("");
    }

    /**
     * `handleResponse`, with the pause before the next level collapsed: stop
     * the timer, score the answer, move to the next level and show it (or end
     * the game).
     */
    method HandleResponse(selectAnswer: string)
      requires Consistent() && currentLevelIndex < |levels|
      modifies this
      ensures Valid()
      ensures levels == old(levels) && currentLevelIndex == old(currentLevelIndex) + 1
      ensures totalPoints == old(totalPoints) + LevelScore(old(levels[currentLevelIndex]), selectAnswer, old(secondsElapsed))
      ensures totalPoints >= old(totalPoints)
      ensures if currentLevelIndex < |levels| then timerRunning && secondsElapsed == 0 && diagnosis == None
              else !timerRunning && secondsElapsed == old(secondsElapsed) && diagnosis == Some(Diagnose(totalPoints))
    {
      timerRunning := false;
      var currentLevel := levels[currentLevelIndex];
      assert currentLevel in levels;
      var isCorrect := selectAnswer == currentLevel.stereogram.name;
      if isCorrect {
        var timeRemaining := if 0 > MaxTimeSeconds - secondsElapsed then 0 else MaxTimeSeconds - secondsElapsed;
        var levelScore := timeRemaining * currentLevel.levelNum;
        totalPoints := totalPoints + levelScore;
      }
      currentLevelIndex := currentLevelIndex + 1;
      LoadLevelOnScreen();
    }

    /** `endGame`: the timer stays stopped and the diagnosis of the final score is shown. */
    method EndGame()
      requires Valid() && !timerRunning
      modifies this`diagnosis
      ensures Valid() && diagnosis == Some(Diagnose(totalPoints))
    {
      diagnosis := Some(Diagnose(totalPoints));
    }
  }
}
