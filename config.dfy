/** The configuration collaborator: an INI file held as a two-level table
    (section -> option -> text). Only its read/write contract is modelled;
    reading and writing the file itself is not. */
module Config {
  import opened Common

  type Sections = map<string, map<string, string>>

  /** The value stored under `section`/`option`, or `default` when the
      section or the option is missing. */
  function Lookup(sections: Sections, section: string, option: string, default: Option<string>): Option<string> {
    if section in sections && option in sections[section]
    then Some(sections[section][option])
    else default
  }

  /** The table after storing `value` under `section`/`option`, creating
      the section when it is missing. */
  function Stored(sections: Sections, section: string, option: string, value: string): (r: Sections)
    ensures Lookup(r, section, option, None) == Some(value)
    ensures forall s, o, d :: (s != section || o != option) ==> Lookup(r, s, o, d) == Lookup(sections, s, o, d)
    ensures r.Keys == sections.Keys + {section}
  {
    var inner := if section in sections then sections[section] else map[];
    sections[section := inner[option := value]]
  }

  class ConfigManager {
    var sections: Sections

    constructor (initial: Sections)
      ensures sections == initial
    {
      sections := initial;
    }

    /** `get(section, option, default)`: never fails; a missing section or
        option yields the default. */
    function Get(section: string, option: string, default: Option<string>): (r: Option<string>)
      reads this
      ensures section in sections && option in sections[section] ==> r == Some(sections[section][option])
      ensures !(section in sections && option in sections[section]) ==> r == default
    {
      Lookup(sections, section, option, default)
    }

    /** `set(section, option, value)`: adds the section when missing; every
        other entry keeps its value. */
    method Set(section: string, option: string, value: string)
      modifies this
      ensures sections == Stored(old(sections), section, option, value)
      ensures Get(section, option, None) == Some(value)
    {
      sections := Stored(sections, section, option, value);
    }
  }
}
