/**
 * The captcha singleton of classes/captcha.php: the class-wide
 * configuration, the session store it reads and writes, the answer of the
 * current challenge and the once-per-page-load flag of `valid`, with the
 * operations that change them proved against the functions of `Session`
 * and `Config`.
 */
module CaptchaCore {
  import opened Wrappers
  import opened Text
  import opened Config
  import opened Session

  class Captcha {
    /** The one-way hash applied to upper-cased answers (SHA-1 in Kohana's captcha module). */
    const hash: string -> string
    /** `Captcha::$config`, shared by every captcha of the process. */
    var config: Config
    /** The session store (`Session::instance($config['session_type'])`). */
    var session: Store
    /** The function-static `$counted` of `valid`: set once a response was counted in this page load. */
    var counted: bool
    /** The answer of the current challenge. */
    var response: string

    /** A new page load: the class defaults, the session as the store has it, nothing counted yet. */
    constructor (hash: string -> string, session: Store)
      ensures this.hash == hash && this.session == session
      ensures config == Defaults() && !counted && response == ""
    {
      this.hash := hash;
      this.session := session;
      config := Defaults();
      counted := false;
      response := "";
    }

    /**
     * The configuration part of the construction: loads the configuration
     * group (the default group when `group` is not a string), which must
     * exist, as must the default group for any other group; copies the
     * values of the keys `Captcha::$config` already knows; and records the
     * group name. A missing group changes nothing.
     */
    method Construct(groups: map<string, Config>, group: Option<string>) returns (r: Outcome<ConfigError>)
      modifies this`config
      ensures var spec := Configure(old(config), groups, group);
        && (spec.Failure? ==> r == Fail(spec.error) && config == old(config))
        && (spec.Success? ==> r == Pass && config == spec.value)
    {
      var name := GroupName(group);
      if name !in groups {
        return Fail(GroupNotDefined(name));
      }
      var merged := groups[name];
      if name != "default" {
        if "default" !in groups {
          return Fail(GroupNotDefined("default"));
        }
        merged := groups["default"] + merged;
      }
      assert Inherited(groups, name) == Success(merged);
      var keys := merged.Keys;
      while keys != {}
        invariant keys <= merged.Keys
        invariant config.Keys == old(config).Keys
        invariant forall k :: k in config ==>
          config[k] == if k in merged && k !in keys then merged[k] else old(config)[k]
        decreases keys
      {
        var k :| k in keys;
        if k in config {
          config := config[k := merged[k]];
        }
        keys := keys - {k};
      }
      assert config == Overlay(old(config), merged);
      config := config["group" := Str(name)];
      r := Pass;
    }

    /** Stores the hash of the upper-cased answer in the session, replacing any earlier one. */
    method UpdateResponseSession()
      modifies this`session
      ensures session == StoreResponse(hash, old(session), response)
    {
      session := session[ResponseKey := StrVal(hash(Upper(response)))];
    }

    /**
     * `valid($response)`: a promoted session passes without counting;
     * otherwise the hash comparison decides, and only the first call of the
     * page load increments a counter.
     */
    method Valid(response: string) returns (result: bool)
      modifies this`session, this`counted
      ensures Checked(result, PageState(session, counted)) ==
        ValidCall(hash, config, PageState(old(session), old(counted)), response)
    {
      if Promoted(config, session, None) {
        return true;
      }
      result := Matches(hash, session, response);
      if !counted {
        counted := true;
        if result {
          var _ := ValidCount(Some(CounterOf(session, ValidKey) + 1), false);
        } else {
          var _ := InvalidCount(Some(CounterOf(session, InvalidKey) + 1));
        }
      }
    }

    /**
     * `valid_count($new_count, $invalid)`: without a new value, the counter
     * (0 when absent); with one, the counter is set (deleted below 1) and the
     * new value itself is returned, even when negative.
     */
    method ValidCount(newCount: Option<int>, invalid: bool) returns (count: int)
      modifies this`session
      ensures newCount.None? ==> count == CounterOf(session, CounterKey(invalid)) && session == old(session)
      ensures newCount.Some? ==>
        count == newCount.value && session == SetCounter(old(session), CounterKey(invalid), newCount.value)
    {
      var key := CounterKey(invalid);
      if newCount.Some? {
        count := newCount.value;
        if count < 1 {
          session := session - {key};
        } else {
          session := session[key := IntVal(count)];
        }
        return;
      }
      count := CounterOf(session, key);
    }

    /** `invalid_count($new_count)`: the same accessor on the invalid counter. */
    method InvalidCount(newCount: Option<int>) returns (count: int)
      modifies this`session
      ensures newCount.None? ==> count == CounterOf(session, InvalidKey) && session == old(session)
      ensures newCount.Some? ==>
        count == newCount.value && session == SetCounter(old(session), InvalidKey, newCount.value)
    {
      count := ValidCount(newCount, true);
    }

    /** `reset_count`: both counters deleted, everything else in the session kept. */
    method ResetCount()
      modifies this`session
      ensures session == ResetCounters(old(session))
    {
      var _ := ValidCount(Some(0), false);
      var _ := ValidCount(Some(0), true);
    }
  }
}
