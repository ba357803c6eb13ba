/**
 * The captcha configuration: the class-wide defaults and the merge that
 * `Captcha::__construct` performs when a configuration group is loaded
 * (classes/captcha.php, lines 19-30 and 76-109).
 */
module Config {
  import opened Wrappers

  /** A PHP configuration value, as far as the captcha configuration uses them. */
  datatype ConfigValue = Null | Bool(b: bool) | Int(i: int) | Str(s: string) | List(items: seq<string>)

  type Config = map<string, ConfigValue>

  datatype ConfigError = GroupNotDefined(group: string)

  /** The class-wide defaults `Captcha::$config` starts from. */
  function Defaults(): Config {
    map[
      "style" := Str("basic"),
      "width" := Int(150),
      "height" := Int(50),
      "complexity" := Int(4),
      "background" := Str(""),
      "fontpath" := Str(""),
      "fonts" := List([]),
      "promote" := Bool(false),
      "session_type" := Str("native")
    ]
  }

  /** The value stored under `key`, PHP's NULL when the key is missing. */
  function Get(config: Config, key: string): ConfigValue {
    if key in config then config[key] else Null
  }

  /** The group name actually used: anything but a string means "default". */
  function GroupName(group: Option<string>): string {
    group.GetOr("default")
  }

  /**
   * The configuration array of the group after inheriting from the default
   * group (`$config += $default`: the group's own keys win).
   */
  function Inherited(groups: map<string, Config>, name: string): (r: Result<Config, ConfigError>)
    ensures r.Failure? <==> name !in groups || (name != "default" && "default" !in groups)
    ensures r.Failure? ==> r.error == GroupNotDefined(if name in groups then "default" else name)
    ensures r.Success? ==> r.value.Keys == groups[name].Keys + (if name == "default" then {} else groups["default"].Keys)
    ensures r.Success? ==> forall k :: k in groups[name] ==> r.value[k] == groups[name][k]
    ensures r.Success? && name != "default" ==>
      forall k :: k in groups["default"] && k !in groups[name] ==> r.value[k] == groups["default"][k]
  {
    if name !in groups then Failure(GroupNotDefined(name))
    else if name == "default" then Success(groups[name])
    else if "default" !in groups then Failure(GroupNotDefined("default"))
    else Success(groups["default"] + groups[name])
  }

  /**
   * Copies into `current` the values of `merged` for the keys `current`
   * already has; keys `current` does not know are ignored.
   */
  function Overlay(current: Config, merged: Config): (r: Config)
    ensures r.Keys == current.Keys
    ensures forall k :: k in r ==> r[k] == (if k in merged then merged[k] else current[k])
  {
    map k | k in current :: if k in merged then merged[k] else current[k]
  }

  /** The class-wide configuration after loading `group` on top of `current`. */
  function Configure(current: Config, groups: map<string, Config>, group: Option<string>): (r: Result<Config, ConfigError>)
    ensures r.Failure? == Inherited(groups, GroupName(group)).Failure?
    ensures r.Success? ==> r.value.Keys == current.Keys + {"group"}
    ensures r.Success? ==> r.value["group"] == Str(GroupName(group))
  {
    var name := GroupName(group);
    match Inherited(groups, name)
    case Failure(e) => Failure(e)
    case Success(merged) => Success(Overlay(current, merged)["group" := Str(name)])
  }

  /**
   * For any group that loads, the "default" group included: a key known to
   * the configuration and set by the group takes the group's value, one set
   * only by the default group takes the default's value, and one set by
   * neither keeps its previous value.
   */
  lemma GroupWinsOverDefault(current: Config, groups: map<string, Config>, group: Option<string>, key: string)
    requires GroupName(group) in groups && "default" in groups
    requires key in current && key != "group"
    ensures Configure(current, groups, group).Success?
    ensures var c := Configure(current, groups, group).value;
      c[key] == if key in groups[GroupName(group)] then groups[GroupName(group)][key]
                else if key in groups["default"] then groups["default"][key]
                else current[key]
  {
  }

  /** Loading a group never adds a key other than "group": unknown keys are dropped. */
  lemma OnlyKnownKeys(current: Config, groups: map<string, Config>, group: Option<string>, key: string)
    requires Configure(current, groups, group).Success?
    requires key !in current && key != "group"
    ensures key !in Configure(current, groups, group).value
  {
  }
}
