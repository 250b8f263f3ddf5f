/** What the markup generator hands to a filter: the attributes of the tag being
    generated, and the form element the tag is bound to, if any. */
module Markup {

  /** A bound form element, as far as the filters look at it: its validation errors. */
  datatype Bind = Bind(errors: seq<string>) {

    /** Python truthiness of `bind.errors`: the error list is not empty. */
    predicate HasErrors() {
      |errors| > 0
    }
  }

  /** The attribute dictionary of one generated tag. The generator owns it and
      reads it back after the filters ran, so filters change it in place. */
  class Attributes {
    var entries: map<string, string>

    constructor (entries: map<string, string>)
      ensures this.entries == entries
    {
      this.entries := entries;
    }
  }

  /** `m.get(key, default)`. */
  function Get(m: map<string, string>, key: string, default: string): string {
    if key in m then m[key] else default
  }
}
