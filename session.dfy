/**
 * The session-bound state of the captcha (classes/captcha.php): the two
 * response counters and the stored answer hash, kept in the session store
 * under fixed keys, the promotion rule, and one call of `Captcha::valid`
 * as a function of the session and the once-per-page-load flag.
 */
module Session {
  import opened Wrappers
  import opened Text
  import opened Config

  /** What the captcha keeps in the session: counters are ints, the answer hash a string. */
  datatype SessionValue = IntVal(n: int) | StrVal(s: string)

  type Store = map<string, SessionValue>

  const ValidKey: string := "captcha_valid_count"
  const InvalidKey: string := "captcha_invalid_count"
  const ResponseKey: string := "captcha_response"

  /** `valid_count` writes the invalid counter when asked to, the valid one otherwise. */
  function CounterKey(invalid: bool): (key: string)
    ensures key == ValidKey || key == InvalidKey
    ensures (key == InvalidKey) == invalid
  {
    if invalid then InvalidKey else ValidKey
  }

  function Lookup(s: Store, key: string): Option<SessionValue> {
    if key in s then Some(s[key]) else None
  }

  /**
   * Counters are either absent or hold an integer of at least 1: a counter
   * set below 1 is deleted instead of stored.
   */
  predicate CountersWellFormed(s: Store) {
    && (ValidKey in s ==> s[ValidKey].IntVal? && s[ValidKey].n >= 1)
    && (InvalidKey in s ==> s[InvalidKey].IntVal? && s[InvalidKey].n >= 1)
  }

  /** `(int) $session->get($key)`: a missing key reads as 0. */
  function CounterOf(s: Store, key: string): (r: int)
    ensures key !in s ==> r == 0
    ensures CountersWellFormed(s) && (key == ValidKey || key == InvalidKey) ==> r >= 0
  {
    if key in s && s[key].IntVal? then s[key].n else 0
  }

  /** Setting a counter: a value below 1 deletes the key, any other value is stored. */
  function SetCounter(s: Store, key: string, n: int): (r: Store)
    ensures CounterOf(r, key) == if n < 1 then 0 else n
    ensures n < 1 <==> key !in r
    ensures forall k :: k != key ==> Lookup(r, k) == Lookup(s, k)
    ensures CountersWellFormed(s) ==> CountersWellFormed(r)
  {
    if n < 1 then s - {key} else s[key := IntVal(n)]
  }

  /** `reset_count`: both counters set to 0, that is, deleted. */
  function ResetCounters(s: Store): (r: Store)
    ensures ValidKey !in r && InvalidKey !in r
    ensures CounterOf(r, ValidKey) == 0 && CounterOf(r, InvalidKey) == 0
    ensures forall k :: k != ValidKey && k != InvalidKey ==> Lookup(r, k) == Lookup(s, k)
    ensures CountersWellFormed(r)
  {
    SetCounter(SetCounter(s, ValidKey, 0), InvalidKey, 0)
  }

  /** `update_response_session`: the hash of the upper-cased answer replaces any earlier one. */
  function StoreResponse(hash: string -> string, s: Store, answer: string): (r: Store)
    ensures Lookup(r, ResponseKey) == Some(StrVal(hash(Upper(answer))))
    ensures forall k :: k != ResponseKey ==> Lookup(r, k) == Lookup(s, k)
    ensures CountersWellFormed(s) ==> CountersWellFormed(r)
  {
    s[ResponseKey := StrVal(hash(Upper(answer)))]
  }

  /** The challenge comparison: the stored hash is strictly equal to the hash of the upper-cased response. */
  predicate Matches(hash: string -> string, s: Store, response: string): (r: bool)
    ensures r ==> ResponseKey in s && s[ResponseKey].StrVal?
    ensures r <==> ResponseKey in s && StoreResponse(hash, s, response) == s
  {
    Lookup(s, ResponseKey) == Some(StrVal(hash(Upper(response))))
  }

  /**
   * PHP's `$count >= $threshold` for a threshold taken from the
   * configuration: an integer compares numerically; NULL and booleans
   * compare after both sides are turned into booleans; an integer is always
   * less than an array. String thresholds are not modelled and never count
   * as reached.
   */
  function LooseAtLeast(count: int, threshold: ConfigValue): (r: bool)
    ensures threshold.Int? ==> (r <==> count >= threshold.i)
    ensures threshold == Null || threshold == Bool(false) ==> r
    ensures threshold == Bool(true) ==> (r <==> count != 0)
    ensures threshold.Str? || threshold.List? ==> !r
  {
    match threshold
    case Int(t) => count >= t
    case Bool(b) => b ==> count != 0
    case Null => true
    case Str(_) => false
    case List(_) => false
  }

  /**
   * `promoted($threshold)`: never when promotion is configured as FALSE;
   * otherwise whether the valid count has reached the given threshold, or
   * the configured one when none is given.
   */
  function Promoted(config: Config, s: Store, threshold: Option<int>): (r: bool)
    ensures Get(config, "promote") == Bool(false) ==> !r
    ensures Get(config, "promote") != Bool(false) && threshold.Some? ==>
      (r <==> CounterOf(s, ValidKey) >= threshold.value)
    ensures Get(config, "promote").Int? && threshold.None? ==>
      (r <==> CounterOf(s, ValidKey) >= Get(config, "promote").i)
    ensures Get(config, "promote") != Bool(false) && threshold.None? ==>
      (r <==> LooseAtLeast(CounterOf(s, ValidKey), Get(config, "promote")))
  {
    var promote := Get(config, "promote");
    if promote == Bool(false) then false
    else
      var count := CounterOf(s, ValidKey);
      match threshold
      case Some(t) => count >= t
      case None => LooseAtLeast(count, promote)
  }

  /** Once reached, a threshold stays reached while the valid count does not drop. */
  lemma PromotionMonotonic(config: Config, s: Store, s': Store, threshold: Option<int>)
    requires Promoted(config, s, threshold)
    requires CountersWellFormed(s)
    requires CounterOf(s', ValidKey) >= CounterOf(s, ValidKey)
    ensures Promoted(config, s', threshold)
  {
  }

  /** The part of the session `valid` touches, and its once-per-page-load flag. */
  datatype PageState = PageState(session: Store, counted: bool)

  /** What one call of `valid` returns and leaves behind. */
  datatype Checked = Checked(result: bool, state: PageState)

  /** The counter the first counted call increments: valid on a pass, invalid on a failure. */
  function Bump(s: Store, passed: bool): (r: Store)
    ensures CountersWellFormed(s) ==>
      && CounterOf(r, ValidKey) == CounterOf(s, ValidKey) + (if passed then 1 else 0)
      && CounterOf(r, InvalidKey) == CounterOf(s, InvalidKey) + (if passed then 0 else 1)
    ensures forall k :: k != ValidKey && k != InvalidKey ==> Lookup(r, k) == Lookup(s, k)
    ensures CountersWellFormed(s) ==> CountersWellFormed(r)
  {
    var key := CounterKey(!passed);
    SetCounter(s, key, CounterOf(s, key) + 1)
  }

  /**
   * One call of `valid(response)`. A promoted session passes without any
   * change. Otherwise the result is the hash comparison, and the first call
   * of the page load increments one counter and sets the flag.
   */
  function ValidCall(hash: string -> string, config: Config, st: PageState, response: string): (c: Checked)
    ensures Promoted(config, st.session, None) ==> c == Checked(true, st)
    ensures !Promoted(config, st.session, None) ==> c.result == Matches(hash, st.session, response)
    ensures st.counted ==> c.state == st
    ensures !st.counted && !Promoted(config, st.session, None) ==>
      c.state == PageState(Bump(st.session, c.result), true)
  {
    if Promoted(config, st.session, None) then Checked(true, st)
    else
      var result := Matches(hash, st.session, response);
      if st.counted then Checked(result, st)
      else Checked(result, PageState(Bump(st.session, result), true))
  }

  /** `valid(r)` and `valid(strtoupper(r))` always agree, on the result and on the state. */
  lemma CaseInsensitive(hash: string -> string, config: Config, st: PageState, response: string)
    ensures ValidCall(hash, config, st, response) == ValidCall(hash, config, st, Upper(response))
    ensures ValidCall(hash, config, st, response) == ValidCall(hash, config, st, Lower(response))
  {
    UpperIdempotent(response);
    UpperOfLower(response);
  }

  /**
   * After the hash of `answer` is stored, the answer passes in any letter
   * case, and the first call of a page load increments the valid counter.
   */
  lemma AnswerPasses(hash: string -> string, config: Config, s: Store, answer: string)
    requires !Promoted(config, s, None)
    requires CountersWellFormed(s)
    ensures var st := PageState(StoreResponse(hash, s, answer), false);
      && ValidCall(hash, config, st, answer).result
      && ValidCall(hash, config, st, Upper(answer)).result
      && ValidCall(hash, config, st, Lower(answer)).result
      && CounterOf(ValidCall(hash, config, st, answer).state.session, ValidKey) == CounterOf(s, ValidKey) + 1
  {
    var st := PageState(StoreResponse(hash, s, answer), false);
    assert Lookup(st.session, ValidKey) == Lookup(s, ValidKey);
    assert !Promoted(config, st.session, None);
    CaseInsensitive(hash, config, st, answer);
  }

  /** What a sequence of `valid` calls within one page load returns and leaves behind. */
  datatype PageRun = PageRun(results: seq<bool>, state: PageState)

  function RunPage(hash: string -> string, config: Config, st: PageState, responses: seq<string>): (p: PageRun)
    ensures |p.results| == |responses|
    decreases |responses|
  {
    if responses == [] then PageRun([], st)
    else
      var c := ValidCall(hash, config, st, responses[0]);
      var rest := RunPage(hash, config, c.state, responses[1..]);
      PageRun([c.result] + rest.results, rest.state)
  }

  /**
   * Once the page load has counted, or the session is promoted, further
   * calls change nothing, and each returns TRUE when promoted and its own
   * comparison otherwise.
   */
  lemma {:induction false} FrozenPage(hash: string -> string, config: Config, st: PageState, responses: seq<string>)
    requires st.counted || Promoted(config, st.session, None)
    ensures RunPage(hash, config, st, responses).state == st
    ensures forall i :: 0 <= i < |responses| ==>
      RunPage(hash, config, st, responses).results[i] ==
        (Promoted(config, st.session, None) || Matches(hash, st.session, responses[i]))
    decreases |responses|
  {
    if responses != [] {
      FrozenPage(hash, config, st, responses[1..]);
      var p := RunPage(hash, config, st, responses);
      forall i | 0 <= i < |responses|
        ensures p.results[i] == (Promoted(config, st.session, None) || Matches(hash, st.session, responses[i]))
      {
        if i > 0 {
          assert p.results[i] == RunPage(hash, config, st, responses[1..]).results[i - 1];
          assert responses[1..][i - 1] == responses[i];
        }
      }
    }
  }

  /**
   * At most one count per page load: on an unpromoted session whose page
   * load has not counted yet, any non-empty run of `valid` calls increments
   * exactly one counter by exactly one, the valid counter if the first call
   * passed and the invalid counter otherwise. The first call returns its own
   * comparison; each later one returns its own comparison unless the
   * increment promoted the session, in which case it returns TRUE.
   */
  lemma {:induction false} AtMostOneCount(hash: string -> string, config: Config, st: PageState, responses: seq<string>)
    requires !st.counted && !Promoted(config, st.session, None)
    requires CountersWellFormed(st.session)
    requires |responses| >= 1
    ensures var p := RunPage(hash, config, st, responses);
      var first := Matches(hash, st.session, responses[0]);
      && p.state == PageState(Bump(st.session, first), true)
      && CounterOf(p.state.session, ValidKey) == CounterOf(st.session, ValidKey) + (if first then 1 else 0)
      && CounterOf(p.state.session, InvalidKey) == CounterOf(st.session, InvalidKey) + (if first then 0 else 1)
      && p.results[0] == first
      && forall i :: 1 <= i < |responses| ==>
           p.results[i] == (Promoted(config, p.state.session, None) || Matches(hash, st.session, responses[i]))
  {
    var first := Matches(hash, st.session, responses[0]);
    var c := ValidCall(hash, config, st, responses[0]);
    assert c.state == PageState(Bump(st.session, first), true);
    FrozenPage(hash, config, c.state, responses[1..]);
    assert Lookup(c.state.session, ResponseKey) == Lookup(st.session, ResponseKey);
    var p := RunPage(hash, config, st, responses);
    forall i | 1 <= i < |responses|
      ensures p.results[i] == (Promoted(config, p.state.session, None) || Matches(hash, st.session, responses[i]))
    {
      assert p.results[i] == RunPage(hash, config, c.state, responses[1..]).results[i - 1];
      assert responses[1..][i - 1] == responses[i];
    }
  }

  /**
   * The session after a series of page loads, each starting with the flag
   * cleared and ending with the hash of the challenge it issued,
   * `answers[j]`, written by the shutdown call of `update_response_session`.
   */
  function RunPages(hash: string -> string, config: Config, s: Store, pages: seq<seq<string>>, answers: seq<string>): Store
    requires |answers| == |pages|
    decreases |pages|
  {
    if pages == [] then s
    else
      var after := RunPage(hash, config, PageState(s, false), pages[0]).state.session;
      RunPages(hash, config, StoreResponse(hash, after, answers[0]), pages[1..], answers[1..])
  }

  /**
   * Each page load's first response answers the challenge the session holds
   * when the page starts: the stored one for the first page, the one issued
   * by the previous page for every later page.
   */
  predicate AnsweredCorrectly(hash: string -> string, s: Store, pages: seq<seq<string>>, answers: seq<string>) {
    && |answers| == |pages|
    && (forall j :: 0 <= j < |pages| ==> pages[j] != [])
    && (|pages| > 0 ==> Matches(hash, s, pages[0][0]))
    && (forall j :: 1 <= j < |pages| ==> hash(Upper(pages[j][0])) == hash(Upper(answers[j - 1])))
  }

  /**
   * With an integer threshold, page loads whose first response answers the
   * current challenge raise the valid count by one each until the threshold
   * is reached, and not beyond it.
   */
  lemma {:induction false} CorrectPagesReachThreshold(hash: string -> string, config: Config, s: Store,
                                                      pages: seq<seq<string>>, answers: seq<string>)
    requires Get(config, "promote").Int?
    requires CountersWellFormed(s)
    requires AnsweredCorrectly(hash, s, pages, answers)
    ensures var t := Get(config, "promote").i;
      var c := CounterOf(s, ValidKey);
      CounterOf(RunPages(hash, config, s, pages, answers), ValidKey) ==
        if c >= t then c else if c + |pages| <= t then c + |pages| else t
    ensures CountersWellFormed(RunPages(hash, config, s, pages, answers))
    decreases |pages|
  {
    if pages != [] {
      var st := PageState(s, false);
      var p := RunPage(hash, config, st, pages[0]);
      if Promoted(config, s, None) {
        FrozenPage(hash, config, st, pages[0]);
      } else {
        AtMostOneCount(hash, config, st, pages[0]);
      }
      var s1 := StoreResponse(hash, p.state.session, answers[0]);
      assert Lookup(s1, ValidKey) == Lookup(p.state.session, ValidKey);
      var pages', answers' := pages[1..], answers[1..];
      forall j | 0 <= j < |pages'|
        ensures pages'[j] != []
      {
        assert pages'[j] == pages[j + 1];
      }
      if |pages'| > 0 {
        assert pages'[0] == pages[1];
        assert Matches(hash, s1, pages'[0][0]);
      }
      forall j | 1 <= j < |pages'|
        ensures hash(Upper(pages'[j][0])) == hash(Upper(answers'[j - 1]))
      {
        assert pages'[j] == pages[j + 1] && answers'[j - 1] == answers[j];
      }
      CorrectPagesReachThreshold(hash, config, s1, pages', answers');
    }
  }

  /**
   * The promotion scenario: from a session with no counts and a stored
   * answer, `t` page loads each answering its current challenge promote the
   * session, after which any response passes and changes nothing.
   */
  lemma PromotedAfterThresholdPages(hash: string -> string, config: Config, s: Store,
                                    pages: seq<seq<string>>, answers: seq<string>, response: string)
    requires Get(config, "promote").Int? && |pages| == Get(config, "promote").i
    requires ValidKey !in s && InvalidKey !in s
    requires AnsweredCorrectly(hash, s, pages, answers)
    ensures var s' := RunPages(hash, config, s, pages, answers);
      && CounterOf(s', ValidKey) == |pages|
      && Promoted(config, s', None)
      && ValidCall(hash, config, PageState(s', false), response) == Checked(true, PageState(s', false))
  {
    CorrectPagesReachThreshold(hash, config, s, pages, answers);
  }
}
