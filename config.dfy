/**
 * The configuration store: a map of sections to option maps, as the
 * shared `RawConfigParser` holds it. Components add their defaults, the
 * command line overrides single options, and readers fetch options as
 * integers, floats or booleans, with None for an option that is unset or
 * empty.
 */
module Config {
  import opened Wrappers
  import opened Text

  /**
   * A stored option: `RawConfigParser` keeps whatever value it is given.
   * The file holds text; the components' defaults also store None,
   * booleans and integers (a start day of the week of 0, say).
   */
  datatype Setting = NoneV | Str(s: string) | Bool(b: bool) | Int(i: int)

  type Sections = map<string, map<string, Setting>>

  /**
   * The exceptions the readers let through from the parser;
   * AttributeError is `getboolean` calling `lower()` on an integer.
   */
  datatype ConfigError = NoSectionError | NoOptionError | ValueError | AttributeError

  /** `RawConfigParser.get`: the stored option, or the error for a missing section or option. */
  function Lookup(m: Sections, section: string, option: string): (r: Result<Setting, ConfigError>)
    ensures r == Err(NoSectionError) <==> section !in m
    ensures r == Err(NoOptionError) <==> section in m && option !in m[section]
    ensures r.Ok? ==> section in m && option in m[section] && r.value == m[section][option]
  {
    if section !in m then Err(NoSectionError)
    else if option !in m[section] then Err(NoOptionError)
    else Ok(m[section][option])
  }

  /** The store after `set`: the section is created when missing, then the option stored. */
  function Store(m: Sections, section: string, option: string, v: Setting): (r: Sections)
    ensures r.Keys == m.Keys + {section}
  {
    m[section := (if section in m then m[section] else map[])[option := v]]
  }

  /** Reading an option back gives what `set` stored; every other option reads as before. */
  lemma LookupAfterStore(m: Sections, section: string, option: string, v: Setting, s2: string, o2: string)
    ensures Lookup(Store(m, section, option, v), s2, o2) ==
      if s2 == section && o2 == option then Ok(v)
      else if s2 == section && section !in m then Err(NoOptionError)
      else Lookup(m, s2, o2)
  {
  }

  /**
   * The section after `set_defaults` has gone through `defaults` (a
   * dictionary, in its order): each key is added with its default unless
   * the section already holds it.
   */
  function WithDefaults(sect: map<string, Setting>, defaults: seq<(string, Setting)>): (r: map<string, Setting>)
    decreases |defaults|
  {
    if defaults == [] then sect
    else
      var r := WithDefaults(sect, defaults[..|defaults| - 1]);
      var (k, v) := defaults[|defaults| - 1];
      if k in r then r else r[k := v]
  }

  /**
   * Defaults never overwrite: every option already set keeps its value;
   * every key given is present afterwards; and nothing else is added.
   */
  lemma {:induction false} WithDefaultsKeeps(sect: map<string, Setting>, defaults: seq<(string, Setting)>)
    ensures forall k :: k in sect ==> k in WithDefaults(sect, defaults) && WithDefaults(sect, defaults)[k] == sect[k]
    ensures forall i :: 0 <= i < |defaults| ==> defaults[i].0 in WithDefaults(sect, defaults)
    ensures forall k :: k in WithDefaults(sect, defaults) ==> k in sect || exists i :: 0 <= i < |defaults| && defaults[i].0 == k
    decreases |defaults|
  {
    if defaults != [] {
      var pre := defaults[..|defaults| - 1];
      WithDefaultsKeeps(sect, pre);
      var r := WithDefaults(sect, defaults);
      forall k | k in r
        ensures k in sect || exists i :: 0 <= i < |defaults| && defaults[i].0 == k
      {
        if k !in sect && k != defaults[|defaults| - 1].0 {
          var i :| 0 <= i < |pre| && pre[i].0 == k;
          assert defaults[i].0 == k;
        }
      }
    }
  }

  /** A key the section lacks gets the value of its first appearance among the defaults. */
  lemma {:induction false} WithDefaultsFirst(sect: map<string, Setting>, defaults: seq<(string, Setting)>, i: nat)
    requires i < |defaults| && defaults[i].0 !in sect
    requires forall j :: 0 <= j < i ==> defaults[j].0 != defaults[i].0
    ensures defaults[i].0 in WithDefaults(sect, defaults)
    ensures WithDefaults(sect, defaults)[defaults[i].0] == defaults[i].1
    decreases |defaults|
  {
    var pre := defaults[..|defaults| - 1];
    WithDefaultsKeeps(sect, defaults);
    if i < |pre| {
      WithDefaultsFirst(sect, pre, i);
    } else {
      assert defaults[i].0 !in WithDefaults(sect, pre) by {
        WithDefaultsKeeps(sect, pre);
        assert forall j :: 0 <= j < |pre| ==> pre[j] == defaults[j];
      }
    }
  }

  /** Setting the same defaults a second time changes nothing. */
  lemma {:induction false} WithDefaultsTwice(sect: map<string, Setting>, defaults: seq<(string, Setting)>)
    ensures WithDefaults(WithDefaults(sect, defaults), defaults) == WithDefaults(sect, defaults)
  {
    var r := WithDefaults(sect, defaults);
    WithDefaultsKeeps(sect, defaults);
    AllPresentUnchanged(r, defaults);
  }

  /** When every key is already present, the defaults change nothing. */
  lemma {:induction false} AllPresentUnchanged(sect: map<string, Setting>, defaults: seq<(string, Setting)>)
    requires forall i :: 0 <= i < |defaults| ==> defaults[i].0 in sect
    ensures WithDefaults(sect, defaults) == sect
    decreases |defaults|
  {
    if defaults != [] {
      AllPresentUnchanged(sect, defaults[..|defaults| - 1]);
    }
  }

  /** The readers' test: an option that is None or the empty string reads as None. */
  predicate Unset(v: Setting) {
    v == NoneV || v == Str("")
  }

  /**
   * `getint` on a set option: Python's `int()` of the stored text; an
   * integer stored by a component is returned as it is, and a boolean
   * converts to 1 or 0.
   */
  function IntOf(v: Setting): (r: Result<int, ConfigError>)
    requires !Unset(v)
    ensures v.Bool? ==> r == Ok(if v.b then 1 else 0)
    ensures v.Int? ==> r == Ok(v.i)
    ensures v.Str? ==> (r.Ok? <==> ParseInt(v.s).Some?) && (r.Ok? ==> r.value == ParseInt(v.s).value)
  {
    match v
    case Bool(b) => Ok(if b then 1 else 0)
    case Int(i) => Ok(i)
    case Str(s) => if ParseInt(s).Some? then Ok(ParseInt(s).value) else Err(ValueError)
  }

  /** The texts `getboolean` accepts, lower-cased, and what they mean. */
  const BooleanStates: map<string, bool> := map[
    "1" := true, "yes" := true, "true" := true, "on" := true,
    "0" := false, "no" := false, "false" := false, "off" := false]

  /** `getboolean` on stored text: its lower-case form must be one of the boolean states. */
  function BoolOfText(s: string): (r: Result<bool, ConfigError>)
    ensures r.Ok? <==> Lower(s) in BooleanStates
    ensures r.Ok? ==> r.value == BooleanStates[Lower(s)]
  {
    if Lower(s) in BooleanStates then Ok(BooleanStates[Lower(s)]) else Err(ValueError)
  }

  /** Any capitalisation of a boolean word reads as that word. */
  lemma BoolOfTextCases()
    ensures BoolOfText("TRUE") == Ok(true) && BoolOfText("Yes") == Ok(true) && BoolOfText("On") == Ok(true)
    ensures BoolOfText("False") == Ok(false) && BoolOfText("NO") == Ok(false) && BoolOfText("0") == Ok(false)
    ensures BoolOfText("2") == Err(ValueError) && BoolOfText("y") == Err(ValueError)
  {
    assert Lower("TRUE") == "true";
    assert Lower("Yes") == "yes";
    assert Lower("On") == "on";
    assert Lower("False") == "false";
    assert Lower("NO") == "no";
    assert Lower("0") == "0";
    assert Lower("2") == "2";
    assert Lower("y") == "y";
  }

  /** The singleton `Config`: the parser's sections, updated in place. */
  class Config {
    var sections: Sections

    constructor ()
      ensures sections == map[]
    {
      sections := map[];
    }

    /** `Config.get`. */
    function Get(section: string, option: string): (r: Result<Setting, ConfigError>)
      reads this
      ensures r.Ok? <==> section in sections && option in sections[section]
      ensures r.Ok? ==> r.value == sections[section][option]
    {
      Lookup(sections, section, option)
    }

    /** `set`: create the section when missing, then store the option. */
    method Set(section: string, option: string, v: Setting)
      modifies this
      ensures sections == Store(old(sections), section, option, v)
      ensures Get(section, option) == Ok(v)
    {
      if section !in sections {
        sections := sections[section := map[]];
      }
      sections := sections[section := sections[section][option := v]];
    }

    /**
     * `set_defaults`: create the section when missing, then add each
     * default the section does not already hold.
     */
    method SetDefaults(section: string, defaults: seq<(string, Setting)>)
      modifies this
      ensures sections == old(sections)[section := WithDefaults(if section in old(sections) then old(sections)[section] else map[], defaults)]
      ensures section in old(sections) ==> forall k :: k in old(sections)[section] ==> k in sections[section] && sections[section][k] == old(sections)[section][k]
      ensures forall i :: 0 <= i < |defaults| ==> defaults[i].0 in sections[section]
    {
      if section !in sections {
        sections := sections[section := map[]];
      }
      ghost var base := sections[section];
      assert base == if section in old(sections) then old(sections)[section] else map[];
      var i := 0;
      while i < |defaults|
        invariant 0 <= i <= |defaults|
        invariant sections == old(sections)[section := WithDefaults(base, defaults[..i])]
      {
        var (k, v) := defaults[i];
        assert defaults[..i + 1][..i] == defaults[..i];
        if k !in sections[section] {
          sections := sections[section := sections[section][k := v]];
        }
        i := i + 1;
      }
      assert defaults[..i] == defaults;
      WithDefaultsKeeps(base, defaults);
    }

    /** `get_int`: None for an unset or empty option, else `getint`. */
    method GetInt(section: string, option: string) returns (r: Result<Option<int>, ConfigError>)
      ensures Get(section, option).Err? ==> r == Err(Get(section, option).error)
      ensures Get(section, option).Ok? && Unset(Get(section, option).value) ==> r == Ok(None)
      ensures Get(section, option).Ok? && !Unset(Get(section, option).value) ==>
        match IntOf(Get(section, option).value)
        case Ok(n) => r == Ok(Some(n))
        case Err(e) => r == Err(e)
    {
      var v := Get(section, option);
      if v.Err? {
        return Err(v.error);
      }
      if Unset(v.value) {
        return Ok(None);
      }
      var n := IntOf(v.value);
      if n.Err? {
        return Err(n.error);
      }
      r := Ok(Some(n.value));
    }

    /**
     * `get_float` up to the conversion: None for an unset or empty
     * option, else the stored value `getfloat` hands to `float()`.
     */
    method GetFloatInput(section: string, option: string) returns (r: Result<Option<Setting>, ConfigError>)
      ensures Get(section, option).Err? ==> r == Err(Get(section, option).error)
      ensures Get(section, option).Ok? && Unset(Get(section, option).value) ==> r == Ok(None)
      ensures Get(section, option).Ok? && !Unset(Get(section, option).value) ==> r == Ok(Some(Get(section, option).value))
    {
      var v := Get(section, option);
      if v.Err? {
        return Err(v.error);
      }
      if Unset(v.value) {
        return Ok(None);
      }
      r := Ok(Some(v.value));
    }

    /**
     * `get_bool`: None for an unset or empty option, a stored boolean as
     * it is, stored text through `getboolean`, and AttributeError for a
     * stored integer, which `getboolean` tries to lower-case.
     */
    method GetBool(section: string, option: string) returns (r: Result<Option<bool>, ConfigError>)
      ensures Get(section, option).Err? ==> r == Err(Get(section, option).error)
      ensures Get(section, option).Ok? && Unset(Get(section, option).value) ==> r == Ok(None)
      ensures Get(section, option) == Ok(Bool(true)) ==> r == Ok(Some(true))
      ensures Get(section, option) == Ok(Bool(false)) ==> r == Ok(Some(false))
      ensures Get(section, option).Ok? && Get(section, option).value.Int? ==> r == Err(AttributeError)
      ensures Get(section, option).Ok? && Get(section, option).value.Str? && !Unset(Get(section, option).value) ==>
        match BoolOfText(Get(section, option).value.s)
        case Ok(b) => r == Ok(Some(b))
        case Err(e) => r == Err(e)
    {
      var v := Get(section, option);
      if v.Err? {
        return Err(v.error);
      }
      if Unset(v.value) {
        return Ok(None);
      }
      match v.value
      case Bool(b) =>
        r := Ok(Some(b));
      case Int(_) =>
        r := Err(AttributeError);
      case Str(s) =>
        var t := BoolOfText(s);
        if t.Err? {
          return Err(t.error);
        }
        r := Ok(Some(t.value));
    }
  }
}
