/**
 * The riddle captcha (classes/kohana/captcha/riddle.php): a question from
 * the riddle list of the current language, whose answer is the riddle's
 * own answer text.
 */
module RiddleDriver {
  import opened Wrappers

  /** One entry of the riddle list: element 0 is the question, element 1 the answer. */
  datatype Riddle = Riddle(question: string, answer: string)

  datatype RiddleError = NoRiddles

  class RiddleCaptcha {
    /** The question kept for `render` (`$riddle`). */
    var riddle: string

    constructor ()
      ensures riddle == ""
    {
      riddle := "";
    }

    /**
     * `generate_challenge`: the riddle at the randomly picked index `pick`
     * gives the question kept for `render` and the answer returned as it is.
     * An empty list has nothing to pick from and changes nothing.
     */
    method GenerateChallenge(riddles: seq<Riddle>, pick: nat) returns (r: Result<string, RiddleError>)
      requires riddles != [] ==> pick < |riddles|
      modifies this`riddle
      ensures riddles == [] ==> r == Failure(NoRiddles) && riddle == old(riddle)
      ensures riddles != [] ==> r == Success(riddles[pick].answer) && riddle == riddles[pick].question
      ensures Render(true) == riddle && Render(false) == riddle
    {
      if riddles == [] {
        return Failure(NoRiddles);
      }
      var chosen := riddles[pick];
      riddle := chosen.question;
      r := Success(chosen.answer);
    }

    /** `render`: the question kept by the last `generate_challenge`, whatever the argument. */
    function Render(html: bool): (r: string)
      reads this
      ensures r == riddle
    {
      riddle
    }
  }
}
