/**
 * The typewriter headline of the Hero component
 * (src/components/Hero.tsx:164-201): a repeating timer types the current
 * phrase one character at a time, pauses on the full phrase, deletes it one
 * character at a time, and moves on to the next phrase.
 *
 * Each firing of the typing timer is a call of `Tick`; the firing of the
 * pause timer scheduled on a full phrase is a call of `PauseElapsed`. The
 * delays themselves (100, 50 and 2000 ms) are not modelled.
 */
module Typewriter {

  const Phrases: seq<string> := [
    "Full-Stack Developer",
    "Data Science Specialist",
    "Machine Learning Enthusiast",
    "React & Node.js Expert",
    "Problem Solver"
  ]

  /**
   * JavaScript's `s.substring(0, end)`: the end is clamped into [0, |s|], so
   * the result is the prefix of that length.
   */
  function Substring(s: string, end: int): (r: string)
    ensures |r| == if end < 0 then 0 else if end > |s| then |s| else end
    ensures r <= s
  {
    s[..if end < 0 then 0 else if end > |s| then |s| else end]
  }

  class Hero {
    var currentText: string
    var currentIndex: int
    var isDeleting: bool
    /** A pause timer has been scheduled and has not fired yet. */
    var pauseScheduled: bool

    /**
     * The index is in range, the shown text is a prefix of the current
     * phrase, and a pending pause was scheduled on the full phrase while
     * typing.
     */
    ghost predicate Valid()
      reads this
    {
      && 0 <= currentIndex < |Phrases|
      && currentText <= Phrases[currentIndex]
      && (pauseScheduled ==> !isDeleting && currentText == Phrases[currentIndex])
    }

    constructor ()
      ensures Valid()
      ensures currentText == "" && currentIndex == 0 && !isDeleting && !pauseScheduled
    {
      currentText := "";
      currentIndex := 0;
      isDeleting := false;
      pauseScheduled := false;
    }

    /**
     * One firing of the typing timer. Every decision reads the state from
     * before the tick, as the timer's closure does. No typing timer is armed
     * while a pause is pending: the tick that schedules the pause sets the
     * text to its own value, so nothing re-renders and the effect does not
     * run again until the pause timer fires.
     */
    method Tick()
      requires Valid() && !pauseScheduled
      modifies this
      ensures Valid()
      // typing adds one character, and stays put on the full phrase
      ensures !old(isDeleting) && old(currentText) != Phrases[old(currentIndex)] ==>
        |currentText| == |old(currentText)| + 1 && old(currentText) < currentText
      ensures !old(isDeleting) && old(currentText) == Phrases[old(currentIndex)] ==>
        currentText == old(currentText)
      // deleting removes one character, and "" stays ""
      ensures old(isDeleting) && old(currentText) != "" ==>
        currentText == old(currentText)[..|old(currentText)| - 1]
      ensures old(isDeleting) && old(currentText) == "" ==> currentText == ""
      // the phrase advances exactly when deleting has reached ""
      ensures currentIndex == if old(isDeleting) && old(currentText) == ""
                              then (old(currentIndex) + 1) % |Phrases|
                              else old(currentIndex)
      ensures isDeleting <==> old(isDeleting) && old(currentText) != ""
      // a pause is scheduled when typing finds the full phrase
      ensures pauseScheduled <==> !old(isDeleting) && old(currentText) == Phrases[old(currentIndex)]
    {
      var current := Phrases[currentIndex];
      var text := currentText;
      if isDeleting {
        currentText := Substring(current, |text| - 1);
      } else {
        currentText := Substring(current, |text| + 1);
      }
      if !isDeleting && text == current {
        pauseScheduled := true;
      } else if isDeleting && text == "" {
        isDeleting := false;
        currentIndex := (currentIndex + 1) % |Phrases|;
      }
    }

    /** The pause timer fires: deleting starts, from the full phrase. */
    method PauseElapsed()
      requires Valid() && pauseScheduled
      modifies this
      ensures Valid()
      ensures isDeleting && !pauseScheduled
      ensures currentText == Phrases[currentIndex]
      ensures currentText == old(currentText) && currentIndex == old(currentIndex)
    {
      isDeleting := true;
      pauseScheduled := false;
    }
  }
}
