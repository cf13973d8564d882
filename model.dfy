/** The entity model every renderer consumes, the tier tables, and the
    classification of a file into a stability tier. */
module Model {
  import opened Text

  /** Tier precedence: earlier tiers sort first. */
  const STABILITY_ORDER: seq<string> := ["stable", "staging", "unstable", "unknown"]

  /** File names whose tier is fixed regardless of their directory. */
  const KNOWN_STABLE: seq<string> := ["wayland.xml"]
  const KNOWN_STAGING: seq<string> := []
  const KNOWN_UNSTABLE: seq<string> := []

  /** File names that sort ahead of every other file, in this order. */
  const PREDEFINED_ORDER: seq<string> := ["wayland.xml"]

  /** A `description` element: its trimmed text and summary. */
  datatype Description = Description(text: string, summary: string)

  /** The fields shared by protocols, interfaces, messages and enums. */
  datatype CommonFields = CommonFields(name: string, descriptions: seq<Description>, copyrights: seq<string>)

  const EMPTY_COMMON := CommonFields("", [], [])

  datatype Argument = Argument(name: string, argType: string, iface: string, summary: string)

  datatype Entry = Entry(name: string, value: string, summary: string)

  /** A request or an event (the two differ only in which list of an interface holds them). */
  datatype Message = Message(common: CommonFields, arguments: seq<Argument>)

  datatype Enum = Enum(common: CommonFields, entries: seq<Entry>)

  datatype Interface = Interface(
    common: CommonFields,
    version: string,
    requests: seq<Message>,
    events: seq<Message>,
    enums: seq<Enum>)

  datatype Protocol = Protocol(common: CommonFields, interfaces: seq<Interface>)

  /** One source document: file name, directory and the protocols found in it. */
  datatype ProtocolFile = ProtocolFile(basename: string, dirname: string, protocols: seq<Protocol>) {

    /** The stability tier of the file: the three file-name allow-lists are
        consulted first, then whole `/`-separated segments of the directory
        (`stable`, then `unstable`, then `staging`); otherwise `unknown`. */
    function CalcStability(): (r: string)
      ensures r in STABILITY_ORDER
    {
      if basename in KNOWN_STABLE then "stable"
      else if basename in KNOWN_STAGING then "staging"
      else if basename in KNOWN_UNSTABLE then "unstable"
      else
        var splitted := Split(dirname, '/');
        if "stable" in splitted then "stable"
        else if "unstable" in splitted then "unstable"
        else if "staging" in splitted then "staging"
        else "unknown"
    }
  }

  /** `xs.index(x)`: the position of the first occurrence of `x`. */
  function IndexOf(xs: seq<string>, x: string): (i: nat)
    requires x in xs
    ensures i < |xs| && xs[i] == x
    ensures forall k :: 0 <= k < i ==> xs[k] != x
  {
    if xs[0] == x then 0 else 1 + IndexOf(xs[1..], x)
  }
}
