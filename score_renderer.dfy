/**
 * `ScoreRenderer`: draws a practice score as a row of stars (or one diamond), styled
 * by how overdue the next practice is relative to the renderer's idea of "now".
 */
module Scores {
  import opened JavaInt
  import opened Spans
  import Trainer

  const MAX_STARS: int := 4
  const ONE_WEEK: int := 7 * 24 * 60 * 60
  const FULL_STAR: char := '\U{2605}'
  const FULL_DIAMOND: char := '\U{2666}'

  /** Which of the three styles a score is drawn in. */
  datatype Grade = Good | Average | Bad

  /**
   * The style threshold: not yet due is good, overdue by at most a week is average,
   * anything older is bad. `now - ONE_WEEK` is a `long` subtraction.
   */
  function GradeOf(nextPractice: int, now: int): (g: Grade)
    ensures g == Good <==> nextPractice >= now
    ensures IsLong(now - ONE_WEEK) ==>
      (g == Average <==> now - ONE_WEEK <= nextPractice < now) &&
      (g == Bad <==> nextPractice < now - ONE_WEEK)
  {
    if nextPractice >= now then Good
    else if nextPractice >= WrapLong(now - ONE_WEEK) then Average
    else Bad
  }

  /** The characters one score is drawn with. */
  function Glyphs(level: int): string
  {
    var numStars := Trainer.GetNumStars(level, MAX_STARS);
    if numStars > 0 then seq(numStars, _ => FULL_STAR) else [FULL_DIAMOND]
  }

  /** Grades only improve as the next practice moves later. */
  lemma GradeMonotone(a: int, b: int, now: int)
    requires a <= b && IsLong(now - ONE_WEEK)
    ensures GradeOf(a, now) == Good ==> GradeOf(b, now) == Good
    ensures GradeOf(a, now) == Average ==> GradeOf(b, now) != Bad
  {
  }

  /** A word just practised successfully is drawn in the good style. */
  lemma JustPractisedIsGood(level: int, now: int)
    requires IsLong(now + Trainer.GetInterval(level))
    ensures GradeOf(Trainer.ScheduleNextPractice(now, level), now) == Good
  {
  }

  /**
   * A score is one to four glyphs: `GetNumStars(level, 4)` stars when that is positive,
   * otherwise one diamond; with four stars the count is the clamped level.
   */
  lemma GlyphsShape(level: int)
    ensures 1 <= |Glyphs(level)| <= MAX_STARS
    ensures Trainer.Clamp(level) == 0 <==> Glyphs(level) == [FULL_DIAMOND]
    ensures Trainer.Clamp(level) > 0 ==>
      |Glyphs(level)| == Trainer.Clamp(level) &&
      forall i :: 0 <= i < |Glyphs(level)| ==> Glyphs(level)[i] == FULL_STAR
  {
    Trainer.FourStarsShowLevel(level);
    if Trainer.Clamp(level) > 0 {
      assert Glyphs(level)[0] == FULL_STAR;
    }
  }

  /** A level at or past the top shows the full four stars. */
  lemma TopLevelShowsFourStars(level: int)
    requires level >= Trainer.MAX_LEVEL
    ensures Glyphs(level) == [FULL_STAR, FULL_STAR, FULL_STAR, FULL_STAR]
  {
    Trainer.FourStarsShowLevel(level);
  }

  class ScoreRenderer {
    const styleGood: int
    const styleAverage: int
    const styleBad: int
    /** The renderer's "now", in seconds; the clock is read by the caller. */
    var timeNow: int

    constructor (styleGood: int, styleAverage: int, styleBad: int, now: int)
      ensures this.styleGood == styleGood && this.styleAverage == styleAverage && this.styleBad == styleBad
      ensures timeNow == now
    {
      this.styleGood := styleGood;
      this.styleAverage := styleAverage;
      this.styleBad := styleBad;
      timeNow := now;
    }

    /** The style resource for a grade. */
    function StyleOf(g: Grade): int
    {
      match g
      case Good => styleGood
      case Average => styleAverage
      case Bad => styleBad
    }

    /**
     * Appends one score to `b` and sets a single span, in the style for
     * `nextPractice`, over exactly the appended glyphs.
     */
    method RenderStarsTo(b: Styled<int>, level: int, nextPractice: int) returns (r: Styled<int>)
      ensures r.text == b.text + Glyphs(level)
      ensures r.spans == b.spans + [Span(StyleOf(GradeOf(nextPractice, timeNow)), |b.text|, |r.text|)]
      ensures 1 <= |r.text| - |b.text| <= MAX_STARS
    {
      var numStars := Trainer.GetNumStars(level, MAX_STARS);
      var text := b.text;
      var start := |text|;

      if numStars > 0 {
        var i := 0;
        while i < numStars
          invariant 0 <= i <= numStars
          invariant text == b.text + seq(i, _ => FULL_STAR)
        {
          text := text + [FULL_STAR];
          i := i + 1;
        }
      } else {
        text := text + [FULL_DIAMOND];
      }

      var style := styleBad;
      if nextPractice >= timeNow {
        style := styleGood;
      } else if nextPractice >= WrapLong(timeNow - ONE_WEEK) {
        style := styleAverage;
      }

      r := Styled(text, b.spans + [Span(style, start, |text|)]);
      GlyphsShape(level);
    }

    /** The score before and after a practice, on two lines. */
    method RenderScores(levelFrom: int, nextPracticeFrom: int, levelTo: int, nextPracticeTo: int)
      returns (r: Styled<int>)
      ensures r.text == Glyphs(levelFrom) + "\n" + Glyphs(levelTo)
      ensures r.spans == [Span(StyleOf(GradeOf(nextPracticeFrom, timeNow)), 0, |Glyphs(levelFrom)|),
                          Span(StyleOf(GradeOf(nextPracticeTo, timeNow)), |Glyphs(levelFrom)| + 1, |r.text|)]
    {
      r := Styled([], []);
      r := RenderStarsTo(r, levelFrom, nextPracticeFrom);
      r := r.(text := r.text + ['\n']);
      r := RenderStarsTo(r, levelTo, nextPracticeTo);
    }

    /** Takes `now` as the renderer's time, then renders one score. */
    method ResetAndRenderScore(info: Trainer.PracticeInfo, now: int) returns (r: Styled<int>)
      modifies this
      ensures timeNow == now
      ensures r == Styled(Glyphs(info.level), [Span(StyleOf(GradeOf(info.nextPractice, now)), 0, |Glyphs(info.level)|)])
    {
      timeNow := now;
      r := RenderStarsTo(Styled([], []), info.level, info.nextPractice);
    }
  }
}
