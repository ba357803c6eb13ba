/**
 * Issuing a challenge: the captcha keeps the answer its driver generated
 * (classes/captcha.php, line 135); the hash of that answer reaches the
 * session only when `update_response_session` runs at the end of the
 * request.
 */
module Challenge {
  import opened Wrappers
  import opened Text
  import opened Config
  import opened Session
  import opened CaptchaCore
  import opened MathDriver
  import opened RiddleDriver

  /**
   * A math challenge at the configured complexity: the driver keeps the
   * exercise, and the captcha keeps the sum in the string form it is later
   * upper-cased and hashed in.
   */
  method IssueMath(c: Captcha, d: MathCaptcha, draws: seq<int>) returns (prompt: string)
    requires Get(c.config, "complexity").Int?
    requires Drawn(TierOf(Get(c.config, "complexity").i), draws)
    modifies c`response, d`exercise
    ensures prompt == d.exercise == Prompt(draws)
    ensures c.response == IntToString(Sum(draws))
  {
    var answer := d.GenerateChallenge(Get(c.config, "complexity").i, draws);
    AnswerBounds(TierOf(Get(c.config, "complexity").i), draws);
    c.response := IntToString(answer);
    prompt := d.Render(true);
  }

  /**
   * A riddle challenge: the driver keeps the question and the captcha the
   * answer as written in the list. An empty list issues nothing.
   */
  method IssueRiddle(c: Captcha, d: RiddleCaptcha, riddles: seq<Riddle>, pick: nat) returns (r: Result<string, RiddleError>)
    requires riddles != [] ==> pick < |riddles|
    modifies c`response, d`riddle
    ensures riddles == [] ==> r == Failure(NoRiddles) && c.response == old(c.response) && d.riddle == old(d.riddle)
    ensures riddles != [] ==>
      && r == Success(riddles[pick].question)
      && d.riddle == riddles[pick].question
      && c.response == riddles[pick].answer
  {
    var answer := d.GenerateChallenge(riddles, pick);
    if answer.Failure? {
      return Failure(answer.error);
    }
    c.response := answer.value;
    r := Success(d.Render(true));
  }

  /**
   * The digits of a math answer pass validation once their hash is stored,
   * on an unpromoted session, and are counted as one valid response.
   */
  lemma MathAnswerPasses(hash: string -> string, config: Config, s: Store, draws: seq<int>, t: Tier)
    requires Drawn(t, draws)
    requires !Promoted(config, s, None)
    requires CountersWellFormed(s)
    ensures var answer := IntToString(Sum(draws));
      var st := PageState(StoreResponse(hash, s, answer), false);
      && Lookup(st.session, ResponseKey) == Some(StrVal(hash(answer)))
      && ValidCall(hash, config, st, answer) == Checked(true, PageState(Bump(st.session, true), true))
  {
    AnswerBounds(t, draws);
    var answer := Decimal(Sum(draws));
    UpperOfDigits(answer);
    AnswerPasses(hash, config, s, answer);
    var st := PageState(StoreResponse(hash, s, answer), false);
    assert Lookup(st.session, ValidKey) == Lookup(s, ValidKey);
  }
}
